/**
 * `UpgradePolicySolver`: the memoised upgrade DP. One `MaskCache` per
 * partial mask holds the values of the states with that mask, one entry per
 * reachable score; `touchedCache` lists the caches written since the last
 * clear, so clearing visits only those. `ValueRec` is proved to return the
 * value `PolicyValue.Value` defines, and every stored entry and every
 * recorded "continue" decision is kept sound with respect to it.
 */
module UpgradePolicy {
  import opened Base
  import opened Bits
  import opened Data
  import opened Mask
  import opened Scoring
  import opened Cost
  import opened PolicyCache
  import opened PolicyValue
  import opened ExpectedCost

  datatype SolverError =
    | ExpectedResourcesNotComputed
    | InvalidMask(mask: nat)
    | InvalidScorePmfCount(count: nat)
    | InvalidScorePmfEmpty(buffIndex: nat)
    | InvalidScorePmfProbability(buffIndex: nat, probability: F64)
    | InvalidScorePmfNotNormalized(buffIndex: nat, probabilitySum: real)
    | ScoreRangeOverflow(maxScoreSum: nat)
    | InvalidScore
    | InvalidTolerance(tolerance: F64)
    | LambdaNotBracketed
    | LambdaNotFoundWithinMaxIter
    | PolicyNotDerived
    | TargetScoreImpossible(maxPossibleScore: nat, targetScore: nat)

  datatype ExpectedCostCache = NotComputed | Computed(memo: seq<MemoEntry>)

  /** The target a raw score maps to: 0 at or below 0, otherwise `(raw * 100).round() as u16`. */
  function TargetFromRaw(raw: real): (r: nat)
    ensures r <= U16_MAX
    ensures raw <= 0.0 ==> r == 0
  {
    if raw <= 0.0 then 0 else ScaledU16(raw, SCORE_MULTIPLIER)
  }

  /** The target a raw score gives, or why it is rejected: not finite, or beyond the best possible score. */
  function CheckedTarget(raw: F64, maxPossibleScore: nat): Result<nat, SolverError>
  {
    if !raw.IsFinite() then Err(InvalidScore)
    else if TargetFromRaw(raw.val) > maxPossibleScore then
      Err(TargetScoreImpossible(maxPossibleScore, TargetFromRaw(raw.val)))
    else Ok(TargetFromRaw(raw.val))
  }

  /** A score shown in display units, `n / 100`, maps back to the internal score `n`. */
  lemma TargetOfDisplayedScore(n: nat)
    requires n <= U16_MAX
    ensures TargetFromRaw(n as real / SCORE_MULTIPLIER) == n
  {
    var x := n as real / SCORE_MULTIPLIER;
    assert x * SCORE_MULTIPLIER == n as real;
    assert (n as real + 0.5).Floor == n;
  }

  /** Cache `c` belongs to the `i`-th partial mask and spans exactly that mask's score range. */
  ghost predicate CacheMatches(pmfs: seq<Pmf>, c: MaskCache, i: nat)
    requires |pmfs| == NUM_BUFFS
  {
    && IsValidExternalPartialMask(c.mask) && Rank(Partial, c.mask) == i
    && c.minScore == MaskMinScore(pmfs, c.mask)
    && c.maxScore == MaskMaxScore(pmfs, c.mask)
    && c.bestCaseRemaining == BestCase(pmfs, c.mask)
  }

  /** A cache with nothing written: every entry unset, nothing touched, nothing accepted. */
  ghost predicate Cleared(c: MaskCache)
    reads c
  {
    c.Valid() && c.touched == [] && c.accepted == {} && forall k :: 0 <= k < |c.dp| ==> c.dp[k].None?
  }

  /** Each entry of one mask's dp array that is set holds the value of its state. */
  ghost predicate EntriesSound(p: Problem, mask: nat, minScore: nat, dp: seq<Option<real>>)
    requires WellShaped(p) && IsValidExternalPartialMask(mask)
  {
    forall k :: 0 <= k < |dp| && dp[k].Some? ==> dp[k].value == StateValue(p, mask, minScore + k)
  }

  /** Each score a mask records as "continue" lies in its range and is one where the policy continues. */
  ghost predicate AcceptedSound(p: Problem, mask: nat, minScore: nat, maxScore: nat, accepted: set<nat>)
    requires WellShaped(p) && IsValidExternalPartialMask(mask)
  {
    forall s :: s in accepted ==> minScore <= s <= maxScore && Continues(p, mask, s)
  }

  /** Storing a state's own value, and recording it as accepted only when the policy continues there, keeps a cache sound. */
  lemma CacheWriteSound(p: Problem, mask: nat, minScore: nat, maxScore: nat, dp: seq<Option<real>>, accepted: set<nat>,
                        s: nat, value: real, decision: bool, dp': seq<Option<real>>, accepted': set<nat>)
    requires WellShaped(p) && IsValidExternalPartialMask(mask) && minScore <= s <= maxScore && s - minScore < |dp|
    requires EntriesSound(p, mask, minScore, dp) && AcceptedSound(p, mask, minScore, maxScore, accepted)
    requires value == StateValue(p, mask, s) && (decision ==> Continues(p, mask, s))
    requires dp' == dp[s - minScore := Some(value)]
    requires accepted' == if decision then accepted + {s} else accepted
    ensures EntriesSound(p, mask, minScore, dp') && AcceptedSound(p, mask, minScore, maxScore, accepted')
  {
    WriteSound(p, mask, minScore, dp, s - minScore, value);
  }

  /** At the empty echo all 13 buffs are open and the next reveal is the first. */
  lemma RootAdvantageOf(p: Problem, total: real)
    requires WellShaped(p) && total == RevealTotal(p, 0, 0)
    ensures Popcount(0) == 0
    ensures Advantage(p, 0, 0) == Expected(total, NUM_BUFFS) - Penalty(p.lambda, p.revealCosts[0])
  {
    ZeroHasNoBits(0);
  }

  /** The state reached by the `j`-th outcome of open buff `idx` is a valid argument of `value_rec`. */
  lemma ChildState(p: Problem, pmfs: seq<Pmf>, mask: nat, s: nat, idx: nat, j: nat, delta: nat)
    requires WellShaped(p) && pmfs == p.pmfs && mask <= MASK_ALL && Popcount(mask) < NUM_ECHO_SLOTS
    requires idx < NUM_BUFFS && !Bit(mask, idx) && j < |pmfs[idx]| && delta == pmfs[idx][j].0
    requires MaskMinScore(pmfs, mask) <= s <= MaskMaxScore(pmfs, mask)
    ensures mask + Pow2(idx) <= MASK_ALL && Popcount(mask + Pow2(idx)) == Popcount(mask) + 1
    ensures MaskMinScore(pmfs, mask + Pow2(idx)) <= s + delta <= MaskMaxScore(pmfs, mask + Pow2(idx))
  {
    AddOpenBuff(mask, idx);
    ChildInRange(p, mask, s, idx, j);
  }

  /** Adding the `j`-th outcome's weighted value extends the running total by one outcome. */
  lemma BuffTotalAdvance(p: Problem, mask: nat, s: nat, idx: nat, j: nat, delta: nat, probability: real,
                         total: real, t: real, value: real)
    requires WellShaped(p) && mask <= MASK_ALL && Popcount(mask) < NUM_ECHO_SLOTS
    requires idx < NUM_BUFFS && !Bit(mask, idx) && j < |p.pmfs[idx]| && p.pmfs[idx][j] == (delta, probability)
    requires t == total + BuffTotal(p, mask, s, idx, j)
    requires mask + Pow2(idx) <= MASK_ALL && Popcount(mask + Pow2(idx)) <= NUM_ECHO_SLOTS
    requires value == Value(p, mask + Pow2(idx), s + delta)
    ensures t + Weighted(probability, value) == total + BuffTotal(p, mask, s, idx, j + 1)
  {
    BuffTotalStep(p, mask, s, idx, j);
  }

  /** One cache's entries and decisions are sound. */
  ghost predicate CacheSound(p: Problem, c: MaskCache)
    requires WellShaped(p)
    reads c`dp, c`accepted
  {
    IsValidExternalPartialMask(c.mask)
    && EntriesSound(p, c.mask, c.minScore, c.dp)
    && AcceptedSound(p, c.mask, c.minScore, c.maxScore, c.accepted)
  }

  /** Writing a state's own value keeps the entries sound. */
  lemma WriteSound(p: Problem, mask: nat, minScore: nat, dp: seq<Option<real>>, k: nat, value: real)
    requires WellShaped(p) && IsValidExternalPartialMask(mask) && k < |dp|
    requires EntriesSound(p, mask, minScore, dp) && value == StateValue(p, mask, minScore + k)
    ensures EntriesSound(p, mask, minScore, dp[k := Some(value)])
  {
    var written := dp[k := Some(value)];
    forall j | 0 <= j < |written| && written[j].Some?
      ensures written[j].value == StateValue(p, mask, minScore + j)
    {
      if j != k {
        assert written[j] == dp[j];
      }
    }
  }

  class UpgradePolicySolver {
    const scorePmfs: seq<Pmf>
    var targetScore: nat
    const costModel: CostModel
    var lambda: real
    var isPolicyDerived: bool
    const pmfLen: seq<nat>
    const maxPossibleScore: nat
    const caches: seq<MaskCache>
    var touchedCache: seq<nat>
    var expectedCostCache: ExpectedCostCache
    /** The caches, as the set of objects the DP may write. */
    ghost const Repr: set<MaskCache>

    /** The fields `new` sets once its checks pass: target, no lambda, nothing cached. */
    constructor Init(scorePmfs: seq<Pmf>, targetScore: nat, costModel: CostModel, pmfLen: seq<nat>,
                     maxPossibleScore: nat, caches: seq<MaskCache>)
      requires |scorePmfs| == NUM_BUFFS && |pmfLen| == NUM_BUFFS && |caches| == NUM_PARTIAL_MASKS
      requires forall b :: 0 <= b < NUM_BUFFS ==> pmfLen[b] == |scorePmfs[b]|
      requires maxPossibleScore == BestCase(scorePmfs, 0) && targetScore <= maxPossibleScore
      requires forall i :: 0 <= i < |caches| ==> CacheMatches(scorePmfs, caches[i], i) && Cleared(caches[i])
      requires costModel.Valid()
      ensures Valid()
      ensures this.scorePmfs == scorePmfs && this.targetScore == targetScore && this.costModel == costModel
      ensures this.caches == caches && this.maxPossibleScore == maxPossibleScore
      ensures Repr == set i | 0 <= i < |caches| :: caches[i]
      ensures lambda == 0.0 && !isPolicyDerived && touchedCache == [] && expectedCostCache == NotComputed
    {
      this.scorePmfs := scorePmfs;
      this.targetScore := targetScore;
      this.costModel := costModel;
      this.pmfLen := pmfLen;
      this.maxPossibleScore := maxPossibleScore;
      this.caches := caches;
      this.Repr := set i | 0 <= i < |caches| :: caches[i];
      lambda := 0.0;
      isPolicyDerived := false;
      touchedCache := [];
      expectedCostCache := NotComputed;
    }

    /** The problem the DP currently solves. */
    function P(): Problem
      reads this`targetScore, this`lambda, costModel`revealCostCached
    {
      Problem(scorePmfs, targetScore, lambda, costModel.revealCostCached)
    }

    /** What never changes after construction. */
    ghost predicate StaticFit()
    {
      && |scorePmfs| == NUM_BUFFS && |pmfLen| == NUM_BUFFS && |caches| == NUM_PARTIAL_MASKS
      && (forall b :: 0 <= b < NUM_BUFFS ==> pmfLen[b] == |scorePmfs[b]|)
      && maxPossibleScore == BestCase(scorePmfs, 0)
      && (forall i :: 0 <= i < |caches| ==> caches[i] in Repr && CacheMatches(scorePmfs, caches[i], i))
    }

    /** `touched_cache` lists, once each, exactly the caches with a non-empty touched list. */
    ghost predicate TouchedIndexed()
      requires StaticFit()
      reads this`touchedCache, Repr
    {
      && (forall j :: 0 <= j < |touchedCache| ==> touchedCache[j] < |caches|)
      && (forall j, j' :: 0 <= j < j' < |touchedCache| ==> touchedCache[j] != touchedCache[j'])
      && (forall i :: 0 <= i < |caches| ==> (caches[i].touched != [] <==> i in touchedCache))
    }

    ghost predicate Shape()
      reads this`targetScore, this`touchedCache, Repr, costModel
    {
      && StaticFit()
      && costModel.Valid()
      && (forall i :: 0 <= i < |caches| ==> caches[i].Valid())
      && TouchedIndexed()
      && targetScore <= maxPossibleScore
    }

    /**
     * Every stored value is the value of its state, and every score recorded
     * as "continue" is one at which the policy continues.
     */
    ghost predicate CachesSound()
      requires StaticFit() && costModel.Cached()
      reads this`targetScore, this`lambda, costModel, Repr
    {
      forall i :: 0 <= i < |caches| ==> CacheSound(P(), caches[i])
    }

    /** The expected-cost memo, once computed, has one entry per partial mask. */
    ghost predicate MemoFits()
      reads this`expectedCostCache
    {
      expectedCostCache.Computed? ==> |expectedCostCache.memo| == NUM_PARTIAL_MASKS
    }

    ghost predicate Valid()
      reads this`targetScore, this`lambda, this`touchedCache, this`expectedCostCache, Repr, costModel
    {
      Shape() && MemoFits() && CachesSound()
    }

    /** The cache of an external partial mask is the one built for it. */
    lemma CacheOf(mask: nat)
      requires StaticFit() && IsValidExternalPartialMask(mask)
      ensures mask <= PARTIAL_MASK_SPACE && MaskToIndex(Partial, mask) < |caches|
      ensures caches[MaskToIndex(Partial, mask)].mask == mask
    {
      PartialIndexInRange(mask);
      var i := MaskToIndex(Partial, mask);
      RankInjective(Partial, caches[i].mask, mask);
    }

    /** `partial_mask_to_index(mask)`, the position of the cache built for `mask`. */
    function CacheIndex(mask: nat): (i: nat)
      requires StaticFit() && IsValidExternalPartialMask(mask)
      ensures i == Rank(Partial, mask) && i < |caches| && caches[i].mask == mask
    {
      CacheOf(mask);
      MaskToIndex(Partial, mask)
    }

    /** Caches at different positions are different objects. */
    lemma CachesDistinct(i: nat, j: nat)
      requires StaticFit() && i < |caches| && j < |caches| && i != j
      ensures caches[i] != caches[j]
    {
      assert CacheMatches(scorePmfs, caches[i], i) && CacheMatches(scorePmfs, caches[j], j);
    }

    /** `set_cache`: register the mask's cache on its first write, then write the entry. */
    method SetCache(mask: nat, score: nat, value: real, decision: bool)
      requires Shape() && IsValidExternalPartialMask(mask)
      requires MaskMinScore(scorePmfs, mask) <= score <= MaskMaxScore(scorePmfs, mask)
      modifies this`touchedCache, Repr
      ensures Shape()
      ensures var c := caches[CacheIndex(mask)];
        && c.dp == old(c.dp)[score - c.minScore := Some(value)]
        && c.accepted == (if decision then old(c.accepted) + {score} else old(c.accepted))
        && touchedCache == (if old(c.touched) == [] then old(touchedCache) + [CacheIndex(mask)] else old(touchedCache))
      ensures forall i :: 0 <= i < |caches| && i != CacheIndex(mask) ==>
        caches[i].dp == old(caches[i].dp) && caches[i].accepted == old(caches[i].accepted)
    {
      var index := CacheIndex(mask);
      var c := caches[index];
      assert c.touched != [] <==> index in touchedCache;
      if c.touched == [] {
        touchedCache := touchedCache + [index];
      }
      c.SetCache(score, value, decision);
      assert c.touched != [] && index in touchedCache;
      forall i | 0 <= i < |caches| && i != index
        ensures caches[i].touched == old(caches[i].touched) && caches[i].Valid()
        ensures caches[i].dp == old(caches[i].dp) && caches[i].accepted == old(caches[i].accepted)
      {
        CachesDistinct(i, index);
      }
    }
  
    /**
     * `value_rec`: the value of the state (mask, score). A finished echo pays
     * the reward when it reaches the target; a partial state is looked up at its
     * clamped score, pruned when the target is out of reach, and otherwise
     * expanded over every open buff and every outcome of its PMF.
     */
    method ValueRec(mask: nat, score: nat) returns (v: real)
      requires Valid() && mask <= MASK_ALL && Popcount(mask) <= NUM_ECHO_SLOTS
      requires MaskMinScore(scorePmfs, mask) <= score <= MaskMaxScore(scorePmfs, mask)
      modifies this`touchedCache, Repr
      ensures Valid()
      ensures v == Value(P(), mask, score)
      decreases NUM_ECHO_SLOTS - Popcount(mask), 6
    {
      if Popcount(mask) >= NUM_ECHO_SLOTS {
        return if score >= targetScore then DP_VALUE_MULTIPLIER else 0.0;
      }
      v := PartialValueRec(mask, score);
    }

    /** `value_rec` on a partial state: look up, prune, or expand and record. */
    method PartialValueRec(mask: nat, score: nat) returns (v: real)
      requires Valid() && IsValidExternalPartialMask(mask)
      requires MaskMinScore(scorePmfs, mask) <= score <= MaskMaxScore(scorePmfs, mask)
      modifies this`touchedCache, Repr
      ensures Valid()
      ensures v == Value(P(), mask, score)
      decreases NUM_ECHO_SLOTS - Popcount(mask), 5
    {
      var index := CacheIndex(mask);
      var cache := caches[index];
      var s := if score >= targetScore then MaxNat(cache.minScore, targetScore) else score;
      ClampInRange(P(), mask, score);
      assert s == Clamp(P(), mask, score);
      var cached := cache.Dp(s);
      if cached.Some? {
        return cached.value;
      }
      v := SolveState(mask, s);
    }

    /** A state not yet in its cache: pruned when the target is out of reach, otherwise expanded; then recorded. */
    method SolveState(mask: nat, s: nat) returns (v: real)
      requires Valid() && IsValidExternalPartialMask(mask)
      requires MaskMinScore(scorePmfs, mask) <= s <= MaskMaxScore(scorePmfs, mask)
      modifies this`touchedCache, Repr
      ensures Valid()
      ensures v == StateValue(P(), mask, s)
      decreases NUM_ECHO_SLOTS - Popcount(mask), 4
    {
      if s + caches[CacheIndex(mask)].bestCaseRemaining < targetScore {
        v := RecordState(mask, s, 0.0);
        return 0.0;
      }
      var total := ExpandState(mask, s);
      v := RecordState(mask, s, total);
    }

    /** The bit-walking loop of `value_rec`: the outcomes of every buff not in `mask`, lowest buff first. */
    method ExpandState(mask: nat, s: nat) returns (total: real)
      requires Valid() && mask <= MASK_ALL && Popcount(mask) < NUM_ECHO_SLOTS
      requires MaskMinScore(scorePmfs, mask) <= s <= MaskMaxScore(scorePmfs, mask)
      modifies this`touchedCache, Repr
      ensures Valid()
      ensures total == RevealTotal(P(), mask, s)
      decreases NUM_ECHO_SLOTS - Popcount(mask), 3
    {
      total := 0.0;
      var remaining: nat := MASK_ALL - mask;
      AllOpen(mask);
      while remaining != 0
        invariant Valid() && Open(mask, remaining)
        invariant total + ExpansionTotal(P(), mask, s, remaining) == ExpansionTotal(P(), mask, s, MASK_ALL - mask)
        decreases remaining
      {
        var lsb := Lsb(remaining);
        var idx := TrailingZeros(remaining);
        TakeLowest(mask, remaining);
        remaining := remaining - lsb;
        total := AddBuffOutcomes(mask, s, idx, total);
      }
    }

    /**
     * The end of `value_rec` for a partial state: a pruned state is worth 0
     * and abandoned; otherwise the advantage of revealing, the mean of the
     * expansion total less lambda times the next reveal's weighted cost, is
     * kept with the decision "continue" when it is not negative, and 0 with
     * "abandon" when it is.
     */
    method DecideState(mask: nat, s: nat, total: real) returns (dp: real, decision: bool)
      requires Shape() && IsValidExternalPartialMask(mask)
      requires s + BestCase(scorePmfs, mask) >= targetScore ==> total == RevealTotal(P(), mask, s)
      ensures dp == StateValue(P(), mask, s)
      ensures decision <==> Continues(P(), mask, s)
    {
      var cache := caches[CacheIndex(mask)];
      StateValueOfDecision(P(), mask, s);
      if s + cache.bestCaseRemaining < targetScore {
        return 0.0, false;
      }
      var numRemainingBuffs := NUM_BUFFS - Popcount(mask);
      var expected := Expected(total, numRemainingBuffs);
      var advantage := expected - Penalty(lambda, costModel.WeightedRevealCost(Popcount(mask)));
      decision := advantage >= 0.0;
      dp := if decision then advantage else 0.0;
    }

    /** Decide the state and store its value and decision. */
    method RecordState(mask: nat, s: nat, total: real) returns (dp: real)
      requires Valid() && IsValidExternalPartialMask(mask)
      requires MaskMinScore(scorePmfs, mask) <= s <= MaskMaxScore(scorePmfs, mask)
      requires s + BestCase(scorePmfs, mask) >= targetScore ==> total == RevealTotal(P(), mask, s)
      modifies this`touchedCache, Repr
      ensures Valid()
      ensures dp == StateValue(P(), mask, s)
    {
      var decision;
      dp, decision := DecideState(mask, s, total);
      StoreState(mask, s, dp, decision);
    }

    /** `set_cache` with the state's own value and decision keeps every entry and decision sound. */
    method StoreState(mask: nat, s: nat, dp: real, decision: bool)
      requires Valid() && IsValidExternalPartialMask(mask)
      requires MaskMinScore(scorePmfs, mask) <= s <= MaskMaxScore(scorePmfs, mask)
      requires dp == StateValue(P(), mask, s) && (decision ==> Continues(P(), mask, s))
      modifies this`touchedCache, Repr
      ensures Valid()
    {
      ghost var p := P();
      var index := CacheIndex(mask);
      var c := caches[index];
      ghost var before := c.dp;
      ghost var accepted := c.accepted;
      assert CacheSound(p, c);
      SetCache(mask, s, dp, decision);
      assert P() == p;
      CacheWriteSound(p, mask, c.minScore, c.maxScore, before, accepted, s, dp, decision, c.dp, c.accepted);
    }

    /** The inner loop of `value_rec`: add each outcome of buff `idx` times the value it leads to. */
    method AddBuffOutcomes(mask: nat, s: nat, idx: nat, total: real) returns (t: real)
      requires Valid() && mask <= MASK_ALL && Popcount(mask) < NUM_ECHO_SLOTS
      requires idx < NUM_BUFFS && !Bit(mask, idx)
      requires MaskMinScore(scorePmfs, mask) <= s <= MaskMaxScore(scorePmfs, mask)
      modifies this`touchedCache, Repr
      ensures Valid()
      ensures t == total + BuffTotal(P(), mask, s, idx, |scorePmfs[idx]|)
      decreases NUM_ECHO_SLOTS - Popcount(mask), 1
    {
      ghost var p := P();
      t := total;
      for j := 0 to pmfLen[idx]
        invariant Valid() && P() == p
        invariant t == total + BuffTotal(p, mask, s, idx, j)
      {
        t := AddOneOutcome(p, mask, s, idx, j, total, t);
      }
    }

    /** One pass of the inner loop: the `j`-th outcome of buff `idx`, weighted by its probability. */
    method AddOneOutcome(ghost p: Problem, mask: nat, s: nat, idx: nat, j: nat, total: real, t: real)
      returns (t': real)
      requires Valid() && p == P() && mask <= MASK_ALL && Popcount(mask) < NUM_ECHO_SLOTS
      requires idx < NUM_BUFFS && !Bit(mask, idx) && j < |p.pmfs[idx]|
      requires MaskMinScore(p.pmfs, mask) <= s <= MaskMaxScore(p.pmfs, mask)
      requires t == total + BuffTotal(p, mask, s, idx, j)
      modifies this`touchedCache, Repr
      ensures Valid() && P() == p
      ensures t' == total + BuffTotal(p, mask, s, idx, j + 1)
      decreases NUM_ECHO_SLOTS - Popcount(mask), 0
    {
      var (delta, probability) := scorePmfs[idx][j];
      ChildState(p, scorePmfs, mask, s, idx, j, delta);
      var value := ValueRec(mask + Pow2(idx), s + delta);
      assert P() == p;
      BuffTotalAdvance(p, mask, s, idx, j, delta, probability, total, t, value);
      t' := t + Weighted(probability, value);
    }

    /**
     * `clear_caches`: forget lambda, the derived policy and the expected
     * costs, and clear exactly the caches listed in `touchedCache`. As every
     * set entry is listed as touched, every cache is empty afterwards.
     */
    method ClearCaches()
      requires Shape()
      modifies this`lambda, this`isPolicyDerived, this`touchedCache, this`expectedCostCache, Repr
      ensures Valid()
      ensures lambda == 0.0 && !isPolicyDerived && touchedCache == [] && expectedCostCache == NotComputed
      ensures forall i :: 0 <= i < |caches| ==> Cleared(caches[i])
    {
      lambda := 0.0;
      isPolicyDerived := false;
      ClearListedCaches();
      touchedCache := [];
      expectedCostCache := NotComputed;
      ClearedIsValid();
    }

    /** The loop of `clear_caches`: `clear_touched` on each cache listed in `touchedCache`. */
    method ClearListedCaches()
      requires Shape()
      modifies Repr
      ensures forall i :: 0 <= i < |caches| ==> Cleared(caches[i])
    {
      var list := touchedCache;
      for j := 0 to |list|
        invariant forall i :: 0 <= i < |caches| ==> caches[i].Valid()
        invariant forall i :: 0 <= i < |caches| && i !in list[j..] ==> Cleared(caches[i])
      {
        var index := list[j];
        caches[index].ClearTouched();
        assert list[j..] == [index] + list[j + 1..];
        forall i | 0 <= i < |caches| && i != index
          ensures caches[i].Valid() && (i !in list[j..] ==> Cleared(caches[i]))
        {
          CachesDistinct(i, index);
        }
      }
    }

    /** With every cache cleared and none listed as touched, the solver is valid at any lambda. */
    lemma ClearedIsValid()
      requires StaticFit() && costModel.Valid() && targetScore <= maxPossibleScore && touchedCache == []
      requires MemoFits() && forall i :: 0 <= i < |caches| ==> Cleared(caches[i])
      ensures Valid()
    {
    }

    /**
     * `update_target_score`: a non-finite or unreachable target is rejected
     * and changes nothing; otherwise the caches are cleared and the target set.
     */
    method UpdateTargetScore(raw: F64) returns (r: Result<(), SolverError>)
      requires Valid()
      modifies this`targetScore, this`lambda, this`isPolicyDerived, this`touchedCache, this`expectedCostCache, Repr
      ensures Valid()
      ensures r.Ok? <==> CheckedTarget(raw, maxPossibleScore).Ok?
      ensures r.Err? ==> r.error == CheckedTarget(raw, maxPossibleScore).error && unchanged(this) && unchanged(Repr)
      ensures r.Ok? ==> Ok(targetScore) == CheckedTarget(raw, maxPossibleScore)
      ensures r.Ok? ==> lambda == 0.0 && !isPolicyDerived && touchedCache == [] && expectedCostCache == NotComputed
      ensures r.Ok? ==> forall i :: 0 <= i < |caches| ==> Cleared(caches[i])
    {
      var checked := CheckedTarget(raw, maxPossibleScore);
      if checked.Err? {
        return Err(checked.error);
      }
      Retarget(checked.value);
      return Ok(());
    }

    /** The success path of `update_target_score`: clear the caches, then set the accepted target. */
    method Retarget(target: nat)
      requires Valid() && target <= maxPossibleScore
      modifies this`targetScore, this`lambda, this`isPolicyDerived, this`touchedCache, this`expectedCostCache, Repr
      ensures Valid() && targetScore == target
      ensures lambda == 0.0 && !isPolicyDerived && touchedCache == [] && expectedCostCache == NotComputed
      ensures forall i :: 0 <= i < |caches| ==> Cleared(caches[i])
    {
      ClearCaches();
      targetScore := target;
    }

    /** The start of `derive_policy_at_lambda` and `root_advantage`: clear, then set lambda and mark the policy derived. */
    method StartDerivation(newLambda: real)
      requires Shape()
      modifies this`lambda, this`isPolicyDerived, this`touchedCache, this`expectedCostCache, Repr
      ensures Valid() && touchedCache == []
      ensures lambda == newLambda && isPolicyDerived && expectedCostCache == NotComputed
    {
      ClearCaches();
      lambda := newLambda;
      isPolicyDerived := true;
    }

    /** `derive_policy_at_lambda`: clear, then run the DP from the empty echo at the given lambda. */
    method DerivePolicyAtLambda(newLambda: real)
      requires Valid()
      modifies this`lambda, this`isPolicyDerived, this`touchedCache, this`expectedCostCache, Repr
      ensures Valid()
      ensures lambda == newLambda && isPolicyDerived && expectedCostCache == NotComputed
    {
      StartDerivation(newLambda);
      EmptyMaskRange(scorePmfs);
      ZeroHasNoBits(0);
      var _ := ValueRec(0, 0);
    }

    /**
     * `root_advantage`: derive the policy at `newLambda` and return the
     * advantage of revealing the first slot of an empty echo.
     */
    method RootAdvantage(newLambda: real) returns (f: real)
      requires Valid()
      modifies this`lambda, this`isPolicyDerived, this`touchedCache, this`expectedCostCache, Repr
      ensures Valid()
      ensures lambda == newLambda && isPolicyDerived && expectedCostCache == NotComputed
      ensures f == Advantage(P(), 0, 0)
    {
      StartDerivation(newLambda);
      EmptyMaskRange(scorePmfs);
      ZeroHasNoBits(0);
      var total := ExpandState(0, 0);
      RootAdvantageOf(P(), total);
      var expected := Expected(total, NUM_BUFFS);
      f := expected - Penalty(lambda, costModel.WeightedRevealCost(0));
    }

    /**
     * `get_decision`: whether to keep revealing at (mask, score). The empty
     * echo always continues, a finished one never does, and a partial one
     * continues exactly at scores reaching its cut-off.
     */
    function GetDecision(mask: nat, score: nat): (r: Result<bool, SolverError>)
      requires StaticFit()
      reads this`isPolicyDerived, Repr
      ensures !isPolicyDerived ==> r == Err(PolicyNotDerived)
      ensures isPolicyDerived && !IsValidExternalPartialMask(mask) && !IsValidExternalFullMask(mask) ==> r == Err(InvalidMask(mask))
      ensures isPolicyDerived && IsValidExternalFullMask(mask) ==> r == Ok(false)
      ensures isPolicyDerived && mask == 0 ==> r == Ok(true)
      ensures isPolicyDerived && IsValidExternalPartialMask(mask) && mask != 0 ==>
        r == Ok(caches[CacheIndex(mask)].cutOff.Some? && score >= caches[CacheIndex(mask)].cutOff.value)
    {
      if !isPolicyDerived then Err(PolicyNotDerived)
      else if IsValidExternalPartialMask(mask) then
        if mask == 0 then Ok(true)
        else
          var d := caches[CacheIndex(mask)].GetDecision(score);
          Ok(d.Some? && d.value)
      else if IsValidExternalFullMask(mask) then Ok(false)
      else Err(InvalidMask(mask))
    }

    /** A partial mask that continues at `score` is backed by a recorded score at most `score` where the policy continues. */
    lemma ContinueIsBacked(mask: nat, score: nat)
      requires Valid() && IsValidExternalPartialMask(mask) && mask != 0 && GetDecision(mask, score) == Ok(true)
      ensures exists s :: MaskMinScore(scorePmfs, mask) <= s <= score && Continues(P(), mask, s)
    {
      var index := CacheIndex(mask);
      var c := caches[index];
      assert c.Valid() && c.cutOff.value in c.accepted;
      assert AcceptedSound(P(), mask, c.minScore, c.maxScore, c.accepted);
      assert Continues(P(), mask, c.cutOff.value);
    }

    /** A partial mask that stops at `score` recorded no "continue" at `score` or below. */
    lemma StopIsBacked(mask: nat, score: nat)
      requires Valid() && IsValidExternalPartialMask(mask) && mask != 0 && GetDecision(mask, score) == Ok(false)
      ensures forall s :: s in caches[CacheIndex(mask)].accepted ==> score < s
    {
      var c := caches[CacheIndex(mask)];
      assert c.Valid();
      if c.cutOff.Some? {
        assert !(score >= c.cutOff.value);
      }
    }

    /**
     * `weighted_expected_cost`: at a derived lambda, the reward over lambda
     * plus the weighted refunds given up on success; over a zero lambda the
     * division gives positive infinity.
     */
    function WeightedExpectedCost(): (r: Result<F64, SolverError>)
      reads this`isPolicyDerived, this`lambda, costModel
      ensures !isPolicyDerived ==> r == Err(PolicyNotDerived)
      ensures isPolicyDerived && lambda == 0.0 ==> r == Ok(PosInf)
      ensures isPolicyDerived && lambda != 0.0 ==>
        r.Ok? && r.value.Finite? && (r.value.val - costModel.WeightedSuccessAdditionalCost()) * lambda == DP_VALUE_MULTIPLIER
    {
      if !isPolicyDerived then Err(PolicyNotDerived)
      else if lambda == 0.0 then Ok(PosInf)
      else Ok(Finite(DP_VALUE_MULTIPLIER / lambda + costModel.WeightedSuccessAdditionalCost()))
    }

    /** What the expected-resources walk reads: the PMFs, the target, the recorded cut-offs and the cost tables. */
    function W(): (w: Walk)
      requires StaticFit()
      reads this`targetScore, Repr, costModel
      ensures WalkShaped(w) && w.pmfs == scorePmfs && w.target == targetScore
      ensures forall i :: 0 <= i < NUM_PARTIAL_MASKS ==> w.cutOffs[i] == caches[i].cutOff
    {
      Walk(scorePmfs, targetScore,
           CutOffs(|caches|),
           costModel.TunerCostNet(),
           [costModel.ExpCost(0), costModel.ExpCost(1), costModel.ExpCost(2), costModel.ExpCost(3), costModel.ExpCost(4)],
           [costModel.FullUpgradeExpCost(0), costModel.FullUpgradeExpCost(1), costModel.FullUpgradeExpCost(2),
            costModel.FullUpgradeExpCost(3), costModel.FullUpgradeExpCost(4), costModel.FullUpgradeExpCost(5)])
    }

    /** The cut-offs of the first `n` caches, in mask order. */
    function CutOffs(n: nat): (r: seq<Option<nat>>)
      requires StaticFit() && n <= NUM_PARTIAL_MASKS
      reads Repr
      ensures |r| == n && forall i :: 0 <= i < n ==> r[i] == caches[i].cutOff
    {
      if n == 0 then [] else CutOffs(n - 1) + [caches[n - 1].cutOff]
    }

    /** The computed memo is sound for the current policy, and its root entry holds the root's outcome. */
    ghost predicate CostsSound()
      requires StaticFit()
      reads this`targetScore, this`expectedCostCache, Repr, costModel
    {
      expectedCostCache.Computed? && Walked(W(), expectedCostCache.memo)
    }

    /** The memo `calculate_expected_resources` starts from: one initial entry per partial mask, in order. */
    method BuildMemo(w: Walk) returns (memo: array<MemoEntry>)
      requires StaticFit() && WalkShaped(w) && w.target == targetScore
      requires forall i :: 0 <= i < NUM_PARTIAL_MASKS ==> w.cutOffs[i] == caches[i].cutOff
      ensures fresh(memo) && ExpectedCost.MemoSound(w, memo[..])
    {
      memo := new MemoEntry[NUM_PARTIAL_MASKS](_ => Abandon);
      ZeroHasNoBits(0);
      var mask := 0;
      while mask <= PARTIAL_MASK_SPACE
        invariant mask <= PARTIAL_MASK_SPACE + 1 && Rank(Partial, mask) <= NUM_PARTIAL_MASKS
        invariant forall j :: 0 <= j < Rank(Partial, mask) ==> memo[j] == InitialEntry(w.target, j, w.cutOffs[j])
      {
        var i := Rank(Partial, mask);
        if IsValidPartialMask(mask) {
          PartialIndexInRange(mask);
          if mask != 0 {
            NonzeroRank(mask);
          }
          memo[i] := InitialEntry(targetScore, mask, caches[i].cutOff);
        }
        mask := mask + 1;
      }
      RankAtEnd(Partial, mask);
      InitialMemoSound(w, memo[..]);
    }

    /** The initial entries are laid out by index and hold nothing computed. */
    static lemma InitialMemoSound(w: Walk, memo: seq<MemoEntry>)
      requires WalkShaped(w) && |memo| == NUM_PARTIAL_MASKS
      requires forall j :: 0 <= j < |memo| ==> memo[j] == InitialEntry(w.target, j, w.cutOffs[j])
      ensures ExpectedCost.MemoSound(w, memo)
    {
      forall mask | IsValidExternalPartialMask(mask) && mask != 0 && Rank(Partial, mask) < |memo|
        ensures StatesSound(w, mask, memo[Rank(Partial, mask)])
      {
        NonzeroRank(mask);
      }
    }

    /**
     * `calculate_expected_resources`: build the memo from the recorded
     * cut-offs, walk the policy from the empty echo, store the root's state
     * and keep the memo for `get_success_probability`.
     */
    method CalculateExpectedResources() returns (r: Result<ExpectedUpgradeCost, SolverError>)
      requires Valid()
      modifies this`expectedCostCache
      ensures Valid()
      ensures !isPolicyDerived ==> r == Err(PolicyNotDerived) && expectedCostCache == old(expectedCostCache)
      ensures isPolicyDerived ==> CostsSound() && r == Ok(Summary(Step(W(), 0, 0)))
    {
      if !isPolicyDerived {
        return Err(PolicyNotDerived);
      }
      var cost := DerivedExpectedResources();
      r := Ok(cost);
    }

    /** `calculate_expected_resources` once the policy is derived. */
    method DerivedExpectedResources() returns (cost: ExpectedUpgradeCost)
      requires Valid() && isPolicyDerived
      modifies this`expectedCostCache
      ensures Valid() && CostsSound() && cost == Summary(Step(W(), 0, 0))
    {
      var w := W();
      var memo, root := WalkPolicy(w);
      KeepExpectedCosts(w, memo);
      cost := Summary(root);
    }

    /** `self.expected_cost_cache = Computed(memo)`. */
    method KeepExpectedCosts(w: Walk, memo: seq<MemoEntry>)
      requires Valid() && w == W() && Walked(w, memo)
      modifies this`expectedCostCache
      ensures Valid() && expectedCostCache == Computed(memo) && CostsSound() && W() == w
    {
      expectedCostCache := Computed(memo);
      assert W() == w;
      ValidOnceMemoFits();
    }

    /** The invariant, from its parts. */
    lemma ValidOnceMemoFits()
      requires Shape() && MemoFits() && CachesSound()
      ensures Valid()
    {
    }

    /** The memo of the policy walked from the root, and the root's state. */
    method WalkPolicy(w: Walk) returns (memo: seq<MemoEntry>, root: CostState)
      requires StaticFit() && WalkShaped(w) && w.target == targetScore
      requires forall i :: 0 <= i < NUM_PARTIAL_MASKS ==> w.cutOffs[i] == caches[i].cutOff
      ensures Walked(w, memo) && root == Step(w, 0, 0)
    {
      var entries := BuildMemo(w);
      root := WalkFromRoot(w, entries);
      memo := entries[..];
    }

    /** The result of `calculate_expected_resources` from the root state. */
    function Summary(root: CostState): ExpectedUpgradeCost
      requires root.successProbability.Some?
      reads costModel
    {
      var success := root.successProbability.value;
      ExpectedUpgradeCost(success,
        PerSuccess(root.tuner, success, costModel.SuccessAdditionalTunerCost()),
        PerSuccess(root.exp, success, costModel.SuccessAdditionalExpCost()))
    }

    /**
     * `get_success_probability`: 1 at or above the target, 0 where the policy
     * stops, and otherwise the success probability stored in the memo
     * computed by `calculate_expected_resources`.
     */
    function GetSuccessProbability(mask: nat, score: nat): (r: Result<real, SolverError>)
      requires StaticFit() && MemoFits()
      reads this, Repr
      ensures !IsValidExternalPartialMask(mask) && !IsValidExternalFullMask(mask) ==> r == Err(InvalidMask(mask))
      ensures IsValidExternalPartialMask(mask) || IsValidExternalFullMask(mask) ==>
        && (score >= targetScore ==> r == Ok(1.0))
        && (score < targetScore && GetDecision(mask, score).Err? ==> r == Err(GetDecision(mask, score).error))
        && (score < targetScore && GetDecision(mask, score) == Ok(false) ==> r == Ok(0.0))
        && (score < targetScore && GetDecision(mask, score) == Ok(true) && expectedCostCache.NotComputed? ==>
              r == Err(ExpectedResourcesNotComputed))
    {
      if !IsValidExternalPartialMask(mask) && !IsValidExternalFullMask(mask) then Err(InvalidMask(mask))
      else if score >= targetScore then Ok(1.0)
      else
        match GetDecision(mask, score)
        case Err(e) => Err(e)
        case Ok(continues) =>
          if !continues then Ok(0.0)
          else
            match expectedCostCache
            case NotComputed => Err(ExpectedResourcesNotComputed)
            case Computed(memo) =>
              PartialIndexInRange(mask);
              StoredProbability(memo, MaskToIndex(Partial, mask), score)
    }

    /**
     * Below the target, a success probability `get_success_probability`
     * returns is the outcome of following the policy from that state: the
     * root's for the empty echo, `Outcome` for any other.
     */
    lemma SuccessProbabilityIsOutcome(mask: nat, score: nat)
      requires Valid() && CostsSound() && score < targetScore
      requires GetSuccessProbability(mask, score).Ok?
      ensures mask == 0 ==> GetSuccessProbability(mask, score).value == Step(W(), 0, 0).successProbability.value
      ensures mask != 0 ==> GetSuccessProbability(mask, score).value == Outcome(W(), mask, score).successProbability.value
    {
      if IsValidExternalFullMask(mask) {
        FullSuccessProbability(mask, score);
      } else if mask == 0 {
        RootSuccessProbability(score);
      } else {
        PartialSuccessProbability(mask, score);
      }
    }

    lemma FullSuccessProbability(mask: nat, score: nat)
      requires StaticFit() && MemoFits() && score < targetScore && IsValidExternalFullMask(mask) && isPolicyDerived
      ensures GetSuccessProbability(mask, score) == Ok(0.0)
      ensures Outcome(W(), mask, score).successProbability == Some(0.0)
    {
      ExternalValidityExclusive(mask);
      assert GetDecision(mask, score) == Ok(false);
    }

    lemma RootSuccessProbability(score: nat)
      requires StaticFit() && MemoFits() && CostsSound() && score < targetScore && GetSuccessProbability(0, score).Ok?
      ensures GetSuccessProbability(0, score).value == Step(W(), 0, 0).successProbability.value
    {
      ZeroHasNoBits(0);
      assert Rank(Partial, 0) == 0;
      assert GetSuccessProbability(0, score) == StoredProbability(expectedCostCache.memo, 0, score);
    }

    lemma PartialSuccessProbability(mask: nat, score: nat)
      requires StaticFit() && MemoFits() && CostsSound() && score < targetScore && GetSuccessProbability(mask, score).Ok?
      requires IsValidExternalPartialMask(mask) && mask != 0
      ensures GetSuccessProbability(mask, score).value == Outcome(W(), mask, score).successProbability.value
    {
      var w := W();
      var index := CacheIndex(mask);
      var cut := caches[index].cutOff;
      assert CutOf(w, mask) == cut;
      if cut.Some? && cut.value <= score {
        assert GetSuccessProbability(mask, score) == StoredProbability(expectedCostCache.memo, index, score);
        StoredProbabilitySound(w, expectedCostCache.memo, mask, score);
      } else {
        assert GetDecision(mask, score) == Ok(false);
        assert Outcome(w, mask, score) == FAILED_STATE;
      }
    }

    /** Under exact PMFs and a refund ratio of at most one, every success probability returned lies in [0, 1]. */
    lemma SuccessProbabilityInRange(mask: nat, score: nat)
      requires Valid() && CostsSound() && Stochastic(W())
      requires GetSuccessProbability(mask, score).Ok?
      ensures 0.0 <= GetSuccessProbability(mask, score).value <= 1.0
    {
      if score < targetScore {
        SuccessProbabilityIsOutcome(mask, score);
        if mask == 0 {
          StepBounded(W(), 0, 0);
        } else {
          OutcomeBounded(W(), mask, score);
        }
      }
    }
  }

  /** The memo's answer in `get_success_probability`: 0 below the entry's cut-off, else its stored state's probability. */
  function StoredProbability(memo: seq<MemoEntry>, index: nat, score: nat): Result<real, SolverError>
    requires index < |memo|
  {
    match memo[index]
    case Abandon => Ok(0.0)
    case Reachable(cutOff, states) =>
      if score < cutOff then Ok(0.0)
      else if score - cutOff >= |states| then Err(InvalidScore)
      else
        match states[score - cutOff].successProbability
        case None => Err(InvalidScore)
        case Some(probability) => Ok(probability)
  }

  /** What a sound memo answers for a nonzero mask at or above its cut-off and below the target is that state's outcome. */
  lemma StoredProbabilitySound(w: Walk, memo: seq<MemoEntry>, mask: nat, score: nat)
    requires WalkShaped(w) && ExpectedCost.MemoSound(w, memo) && IsValidExternalPartialMask(mask) && mask != 0
    requires CutOf(w, mask).Some? && CutOf(w, mask).value <= score < w.target
    requires Rank(Partial, mask) < |memo| && StoredProbability(memo, Rank(Partial, mask), score).Ok?
    ensures StoredProbability(memo, Rank(Partial, mask), score).value == Outcome(w, mask, score).successProbability.value
  {
    PartialIndexInRange(mask);
    var index := Rank(Partial, mask);
    AbandonedEntry(w, memo, mask);
    KeyInEntry(w, memo, mask, score);
    assert StatesSound(w, mask, memo[index]);
  }

  /** `ExpectedUpgradeCost`: the success probability per attempt and the resources spent per success. */
  datatype ExpectedUpgradeCost = ExpectedUpgradeCost(successProbability: real, tunerPerSuccess: F64, expPerSuccess: F64)

  /**
   * `total / success + extra` in floating point: dividing by a zero
   * probability gives an infinity of the total's sign, or NaN for 0 / 0.
   */
  function PerSuccess(total: real, success: real, extra: real): (r: F64)
    ensures success != 0.0 ==> r.Finite? && (r.val - extra) * success == total
    ensures success == 0.0 ==> (r.PosInf? <==> total > 0.0) && (r.NaN? <==> total == 0.0) && !r.Finite?
  {
    if success != 0.0 then Finite(total / success + extra)
    else if total > 0.0 then PosInf
    else if total < 0.0 then NegInf
    else NaN
  }

  // ---------------------------------------------------------------------
  // Construction

  /** A PMF as the constructor receives it: score keys with raw `f64` probabilities. */
  type RawPmf = seq<(nat, F64)>

  /** The PMF the DP reads: each probability as its real value (all are finite once validated). */
  function RealPmf(raw: RawPmf): (pmf: Pmf)
    ensures |pmf| == |raw|
    ensures forall j :: 0 <= j < |raw| ==> pmf[j].0 == raw[j].0 && (raw[j].1.Finite? ==> pmf[j].1 == raw[j].1.val)
  {
    seq(|raw|, j requires 0 <= j < |raw| => (raw[j].0, if raw[j].1.Finite? then raw[j].1.val else 0.0))
  }

  function RealPmfs(raws: seq<RawPmf>): (pmfs: seq<Pmf>)
    ensures |pmfs| == |raws| && forall b :: 0 <= b < |raws| ==> pmfs[b] == RealPmf(raws[b])
  {
    seq(|raws|, b requires 0 <= b < |raws| => RealPmf(raws[b]))
  }

  /** The first probability from position `j` on that is not finite or is negative. */
  function FirstBadProbability(raw: RawPmf, j: nat): (r: Option<F64>)
    requires j <= |raw|
    ensures r.None? <==> forall k :: j <= k < |raw| ==> !InvalidWeight(raw[k].1)
    ensures r.Some? ==> InvalidWeight(r.value) && exists k :: j <= k < |raw| && raw[k].1 == r.value
    decreases |raw| - j
  {
    if j == |raw| then None
    else if InvalidWeight(raw[j].1) then Some(raw[j].1)
    else FirstBadProbability(raw, j + 1)
  }

  /** How far a probability sum may be from one. */
  const PMF_SUM_TOL: real := 0.000000001

  /**
   * Why `new` refuses buff `b`'s PMF, in its order of checks: empty, the
   * first bad probability, or probabilities summing to more than the
   * tolerance away from one.
   */
  function PmfError(raw: RawPmf, b: nat): Option<SolverError>
  {
    if raw == [] then Some(InvalidScorePmfEmpty(b))
    else
      match FirstBadProbability(raw, 0)
      case Some(probability) => Some(InvalidScorePmfProbability(b, probability))
      case None =>
        var sum := ProbabilitySum(RealPmf(raw), |raw|);
        if sum - 1.0 > PMF_SUM_TOL || 1.0 - sum > PMF_SUM_TOL then Some(InvalidScorePmfNotNormalized(b, sum))
        else None
  }

  /** The first refused PMF from buff `b` on. */
  function PmfsError(raws: seq<RawPmf>, b: nat): Option<SolverError>
    requires b <= |raws|
    decreases |raws| - b
  {
    if b == |raws| then None
    else if PmfError(raws[b], b).Some? then PmfError(raws[b], b)
    else PmfsError(raws, b + 1)
  }

  /**
   * Everything `new` refuses, in its order: a non-finite target, a PMF count
   * other than 13, a refused PMF, a best five-buff score sum beyond `u16`,
   * and a target beyond the best possible score.
   */
  function NewError(raws: seq<RawPmf>, targetRaw: F64): Option<SolverError>
  {
    if !targetRaw.IsFinite() then Some(InvalidScore)
    else if |raws| != NUM_BUFFS then Some(InvalidScorePmfCount(|raws|))
    else if PmfsError(raws, 0).Some? then PmfsError(raws, 0)
    else
      var pmfs := RealPmfs(raws);
      var maxScoreSum := SumNat(TopScores(NUM_ECHO_SLOTS, BuffMaxScores(pmfs)));
      if maxScoreSum > U16_MAX then Some(ScoreRangeOverflow(maxScoreSum))
      else
        match CheckedTarget(targetRaw, BestCase(pmfs, 0))
        case Err(e) => Some(e)
        case Ok(_) => None
  }

  /** A non-empty PMF's smallest key is at most its largest. */
  lemma MinAtMostMax(pmf: Pmf)
    requires pmf != []
    ensures MinScoreOf(pmf) <= MaxScoreOf(pmf)
  {
    assert MinScoreOf(pmf) <= pmf[0].0 <= MaxScoreOf(pmf);
  }

  /** The checks `new` runs on one buff's PMF, and then its smallest and largest keys. */
  method ScanPmf(raw: RawPmf, b: nat) returns (r: Result<(nat, nat), SolverError>)
    ensures r.Err? <==> PmfError(raw, b).Some?
    ensures r.Err? ==> r.error == PmfError(raw, b).value
    ensures r.Ok? ==> r.value == (MinScoreOf(RealPmf(raw)), MaxScoreOf(RealPmf(raw)))
  {
    if |raw| == 0 {
      return Err(InvalidScorePmfEmpty(b));
    }
    ghost var pmf := RealPmf(raw);
    var sum := 0.0;
    for j := 0 to |raw|
      invariant FirstBadProbability(raw, 0) == FirstBadProbability(raw, j)
      invariant sum == ProbabilitySum(pmf, j)
    {
      var probability := raw[j].1;
      if InvalidWeight(probability) {
        return Err(InvalidScorePmfProbability(b, probability));
      }
      sum := sum + probability.val;
    }
    if sum - 1.0 > PMF_SUM_TOL || 1.0 - sum > PMF_SUM_TOL {
      return Err(InvalidScorePmfNotNormalized(b, sum));
    }
    var lo, hi := U16_MAX, 0;
    for j := 0 to |raw|
      invariant lo == MinScoreOf(pmf[..j]) && hi == MaxScoreOf(pmf[..j])
    {
      assert pmf[..j + 1][..j] == pmf[..j];
      lo := MinNat(lo, raw[j].0);
      hi := MaxNat(hi, raw[j].0);
    }
    assert pmf[..|raw|] == pmf;
    return Ok((lo, hi));
  }

  /**
   * The loop of `new` over the buffs: check each PMF, record its smallest and
   * largest keys, and keep the five largest maxima; then their sum.
   */
  method ScanPmfs(raws: seq<RawPmf>) returns (r: Result<(seq<nat>, seq<nat>, nat), SolverError>)
    requires |raws| == NUM_BUFFS
    ensures r.Err? <==> PmfsError(raws, 0).Some?
    ensures r.Err? ==> r.error == PmfsError(raws, 0).value
    ensures r.Ok? ==> && r.value.0 == BuffMinScores(RealPmfs(raws)) && r.value.1 == BuffMaxScores(RealPmfs(raws))
                      && r.value.2 == SumNat(TopScores(NUM_ECHO_SLOTS, BuffMaxScores(RealPmfs(raws))))
  {
    ghost var allMins := BuffMinScores(RealPmfs(raws));
    ghost var allMaxs := BuffMaxScores(RealPmfs(raws));
    var mins: seq<nat> := [];
    var maxs: seq<nat> := [];
    var top := new nat[NUM_ECHO_SLOTS](_ => 0);
    TopScoresStart(NUM_ECHO_SLOTS);
    assert top[..] == ZeroScores(NUM_ECHO_SLOTS);
    for b := 0 to NUM_BUFFS
      invariant PmfsError(raws, 0) == PmfsError(raws, b)
      invariant mins == allMins[..b] && maxs == allMaxs[..b]
      invariant top[..] == TopScores(NUM_ECHO_SLOTS, maxs)
    {
      var scanned := ScanPmf(raws[b], b);
      if scanned.Err? {
        return Err(scanned.error);
      }
      var lo, hi := scanned.value.0, scanned.value.1;
      assert lo == allMins[b] && hi == allMaxs[b];
      PrefixStep(allMins, b);
      PrefixStep(allMaxs, b);
      KeepTop(top, maxs, hi);
      mins := mins + [lo];
      maxs := maxs + [hi];
    }
    assert allMins[..NUM_BUFFS] == allMins && allMaxs[..NUM_BUFFS] == allMaxs;
    return Ok((mins, maxs, SumNat(top[..])));
  }

  /** One step of the top-five insertion: the buffer holds the five largest maxima seen so far. */
  method KeepTop(top: array<nat>, maxs: seq<nat>, hi: nat)
    requires top.Length == NUM_ECHO_SLOTS && top[..] == TopScores(NUM_ECHO_SLOTS, maxs)
    modifies top
    ensures top[..] == TopScores(NUM_ECHO_SLOTS, maxs + [hi])
  {
    TopScoresStep(NUM_ECHO_SLOTS, maxs, hi);
    TopScoresDescending(NUM_ECHO_SLOTS, maxs);
    assert top[..NUM_ECHO_SLOTS] == top[..];
    ShiftScoreIn(top, NUM_ECHO_SLOTS, hi);
    assert top[..NUM_ECHO_SLOTS] == top[..];
  }

  /** The per-buff sums over a mask's buffs: its smallest and largest score. */
  method MaskScoreRange(mask: nat, mins: seq<nat>, maxs: seq<nat>) returns (lo: nat, hi: nat)
    requires |mins| == NUM_BUFFS && |maxs| == NUM_BUFFS
    ensures lo == MaskSum(mask, mins, NUM_BUFFS) && hi == MaskSum(mask, maxs, NUM_BUFFS)
  {
    lo, hi := 0, 0;
    for b := 0 to NUM_BUFFS
      invariant lo == MaskSum(mask, mins, b) && hi == MaskSum(mask, maxs, b)
    {
      if Bit(mask, b) {
        lo := lo + mins[b];
        hi := hi + maxs[b];
      }
    }
  }

  /** The enumeration has `NumMasks` masks up to its space bound. */
  lemma RankAtEnd(kind: Kind, n: nat)
    requires n == Space(kind) + 1
    ensures Rank(kind, n) == NumMasks(kind)
  {
    MaskCounts(kind);
  }

  /** The loop of `new` over `PARTIAL_MASKS`: one fresh, empty cache per partial mask, in order. */
  method BuildCaches(pmfs: seq<Pmf>, mins: seq<nat>, maxs: seq<nat>) returns (caches: seq<MaskCache>)
    requires |pmfs| == NUM_BUFFS && mins == BuffMinScores(pmfs) && maxs == BuffMaxScores(pmfs)
    requires forall b :: 0 <= b < NUM_BUFFS ==> pmfs[b] != []
    ensures |caches| == NUM_PARTIAL_MASKS
    ensures forall i :: 0 <= i < |caches| ==> CacheMatches(pmfs, caches[i], i) && Cleared(caches[i]) && fresh(caches[i])
  {
    forall b | 0 <= b < NUM_BUFFS
      ensures mins[b] <= maxs[b]
    {
      MinAtMostMax(pmfs[b]);
    }
    caches := [];
    var mask := 0;
    while mask <= PARTIAL_MASK_SPACE
      invariant mask <= PARTIAL_MASK_SPACE + 1
      invariant |caches| == Rank(Partial, mask)
      invariant forall i :: 0 <= i < |caches| ==> CacheMatches(pmfs, caches[i], i) && Cleared(caches[i]) && fresh(caches[i])
    {
      if IsValidPartialMask(mask) {
        var lo, hi := MaskScoreRange(mask, mins, maxs);
        MaskSumMonotone(mask, mins, maxs, NUM_BUFFS);
        var best := BestCaseRemainingScore(mask, maxs);
        var c := new MaskCache(lo, hi, best, mask);
        caches := caches + [c];
      }
      mask := mask + 1;
    }
    RankAtEnd(Partial, mask);
  }

  /**
   * `new` on the PMFs the scorer built: validate the target and the PMFs as
   * `NewError` says, and otherwise a solver with the target set, no lambda,
   * nothing derived and every cache empty.
   */
  method NewFromScorePmfs(raws: seq<RawPmf>, targetRaw: F64, costModel: CostModel)
    returns (r: Result<UpgradePolicySolver, SolverError>)
    requires costModel.Valid()
    ensures r.Err? <==> NewError(raws, targetRaw).Some?
    ensures r.Err? ==> r.error == NewError(raws, targetRaw).value
    ensures r.Ok? ==>
      var solver := r.value;
      && fresh(solver) && fresh(solver.Repr) && solver.Valid() && solver.costModel == costModel
      && solver.scorePmfs == RealPmfs(raws) && solver.maxPossibleScore == BestCase(solver.scorePmfs, 0)
      && Ok(solver.targetScore) == CheckedTarget(targetRaw, solver.maxPossibleScore)
      && solver.lambda == 0.0 && !solver.isPolicyDerived && solver.touchedCache == []
      && solver.expectedCostCache == NotComputed
      && forall i :: 0 <= i < |solver.caches| ==> Cleared(solver.caches[i])
  {
    if !targetRaw.IsFinite() {
      return Err(InvalidScore);
    }
    if |raws| != NUM_BUFFS {
      return Err(InvalidScorePmfCount(|raws|));
    }
    var scanned := ScanPmfs(raws);
    if scanned.Err? {
      return Err(scanned.error);
    }
    var (mins, maxs, maxScoreSum) := scanned.value;
    if maxScoreSum > U16_MAX {
      return Err(ScoreRangeOverflow(maxScoreSum));
    }
    var maxPossibleScore := BestCaseRemainingScore(0, maxs);
    var targetScore := TargetFromRaw(targetRaw.val);
    if targetScore > maxPossibleScore {
      return Err(TargetScoreImpossible(maxPossibleScore, targetScore));
    }
    var scorePmfs := RealPmfs(raws);
    NonEmptyAccepted(raws);
    var caches := BuildCaches(scorePmfs, mins, maxs);
    var pmfLen := seq(NUM_BUFFS, b requires 0 <= b < NUM_BUFFS => |scorePmfs[b]|);
    var solver := new UpgradePolicySolver.Init(scorePmfs, targetScore, costModel, pmfLen, maxPossibleScore, caches);
    return Ok(solver);
  }

  /** PMFs that pass the checks are non-empty. */
  lemma NonEmptyAccepted(raws: seq<RawPmf>)
    requires |raws| == NUM_BUFFS && PmfsError(raws, 0).None?
    ensures forall b :: 0 <= b < NUM_BUFFS ==> raws[b] != []
  {
    forall b | 0 <= b < NUM_BUFFS
      ensures raws[b] != []
    {
      PmfsErrorCovers(raws, 0, b);
    }
  }

  lemma {:induction false} PmfsErrorCovers(raws: seq<RawPmf>, from: nat, b: nat)
    requires from <= b < |raws| && PmfsError(raws, from).None?
    ensures PmfError(raws[b], b).None?
    decreases b - from
  {
    if from < b {
      PmfsErrorCovers(raws, from + 1, b);
    }
  }

  /**
   * `UpgradePolicySolver::new`: the scorer's PMFs, every probability a
   * finite float, then the checks and construction above.
   */
  method New(scorer: Scorer, blendData: bool, targetRaw: F64, costModel: CostModel)
    returns (r: Result<UpgradePolicySolver, SolverError>)
    requires ValidScorer(scorer) && costModel.Valid()
    ensures r.Err? <==> NewError(AsRaw(BuiltPmfs(scorer, blendData)), targetRaw).Some?
    ensures r.Err? ==> r.error == NewError(AsRaw(BuiltPmfs(scorer, blendData)), targetRaw).value
    ensures r.Ok? ==>
      var solver := r.value;
      && fresh(solver) && fresh(solver.Repr) && solver.Valid() && solver.costModel == costModel
      && solver.scorePmfs == BuiltPmfs(scorer, blendData) && solver.maxPossibleScore == BestCase(solver.scorePmfs, 0)
      && Ok(solver.targetScore) == CheckedTarget(targetRaw, solver.maxPossibleScore)
      && solver.lambda == 0.0 && !solver.isPolicyDerived && solver.touchedCache == []
      && solver.expectedCostCache == NotComputed
      && forall i :: 0 <= i < |solver.caches| ==> Cleared(solver.caches[i])
  {
    if !targetRaw.IsFinite() {
      return Err(InvalidScore);
    }
    var scorePmfs := BuildScorePmfs(scorer, blendData);
    assert scorePmfs == BuiltPmfs(scorer, blendData);
    RealOfRaw(scorePmfs);
    r := NewFromScorePmfs(AsRaw(scorePmfs), targetRaw, costModel);
  }

  /** What `build_score_pmfs` builds. */
  ghost function BuiltPmfs(scorer: Scorer, blendData: bool): (pmfs: seq<Pmf>)
    requires ValidScorer(scorer)
  {
    seq(NUM_BUFFS, b requires 0 <= b < NUM_BUFFS => ScorePmf(scorer, b, SourceHistogram(b, blendData)))
  }

  /** The PMFs with each probability as a finite float. */
  function AsRaw(pmfs: seq<Pmf>): (raws: seq<RawPmf>)
    ensures |raws| == |pmfs|
  {
    seq(|pmfs|, b requires 0 <= b < |pmfs| => seq(|pmfs[b]|, j requires 0 <= j < |pmfs[b]| => (pmfs[b][j].0, Finite(pmfs[b][j].1))))
  }

  lemma RealOfRaw(pmfs: seq<Pmf>)
    ensures RealPmfs(AsRaw(pmfs)) == pmfs
  {
    forall b | 0 <= b < |pmfs|
      ensures RealPmf(AsRaw(pmfs)[b]) == pmfs[b]
    {
    }
  }
}
