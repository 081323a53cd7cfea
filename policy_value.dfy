/**
 * The value the upgrade-policy DP computes, as plain recursive functions.
 * A state is a mask of revealed buff types and the score reached so far; a
 * finished echo (5 buffs) is worth 1000 when it reaches the target, and a
 * partial one is worth the expected value of revealing one more slot minus
 * lambda times that reveal's weighted cost, or nothing when abandoning is
 * better. The memoised solvers are proved against these functions.
 */
module PolicyValue {
  import opened Base
  import opened Bits
  import opened Data
  import opened Mask
  import opened Scoring
  import opened PolicyCache

  const DP_VALUE_MULTIPLIER: real := 1000.0

  /** What one DP run depends on: the PMFs, the target, lambda and the five weighted reveal costs. */
  datatype Problem = Problem(pmfs: seq<Pmf>, target: nat, lambda: real, revealCosts: seq<real>)

  predicate WellShaped(p: Problem)
  {
    |p.pmfs| == NUM_BUFFS && |p.revealCosts| == NUM_ECHO_SLOTS
  }

  // ---------------------------------------------------------------------
  // Score ranges

  /** The smallest score key, folded from `u16::MAX` as the engine does. */
  function MinScoreOf(pmf: Pmf): (r: nat)
    ensures r <= U16_MAX
    ensures forall j :: 0 <= j < |pmf| ==> r <= pmf[j].0
  {
    if pmf == [] then U16_MAX else MinNat(MinScoreOf(pmf[..|pmf| - 1]), pmf[|pmf| - 1].0)
  }

  /** The largest score key, folded from 0. */
  function MaxScoreOf(pmf: Pmf): (r: nat)
    ensures forall j :: 0 <= j < |pmf| ==> pmf[j].0 <= r
  {
    if pmf == [] then 0 else MaxNat(MaxScoreOf(pmf[..|pmf| - 1]), pmf[|pmf| - 1].0)
  }

  /** On a non-empty PMF the folds give a key that occurs, so the minimum is at most the maximum. */
  lemma {:induction false} ScoreRangeAttained(pmf: Pmf)
    requires pmf != [] && forall j :: 0 <= j < |pmf| ==> pmf[j].0 <= U16_MAX
    ensures exists j :: 0 <= j < |pmf| && pmf[j].0 == MinScoreOf(pmf)
    ensures exists j :: 0 <= j < |pmf| && pmf[j].0 == MaxScoreOf(pmf)
    ensures MinScoreOf(pmf) <= MaxScoreOf(pmf)
  {
    var n := |pmf| - 1;
    if n == 0 {
      assert pmf[..n] == [];
      assert MaxScoreOf(pmf[..n]) == 0 && MinScoreOf(pmf[..n]) == U16_MAX;
      assert pmf[0].0 == MinScoreOf(pmf) && pmf[0].0 == MaxScoreOf(pmf);
    } else {
      ScoreRangeAttained(pmf[..n]);
      var a :| 0 <= a < n && pmf[..n][a].0 == MinScoreOf(pmf[..n]);
      var b :| 0 <= b < n && pmf[..n][b].0 == MaxScoreOf(pmf[..n]);
      var lo := if pmf[a].0 < pmf[n].0 then a else n;
      var hi := if pmf[b].0 < pmf[n].0 then n else b;
      assert pmf[lo].0 == MinScoreOf(pmf) && pmf[hi].0 == MaxScoreOf(pmf);
    }
  }

  /** `buff_min_score`. */
  function BuffMinScores(pmfs: seq<Pmf>): (r: seq<nat>)
    requires |pmfs| == NUM_BUFFS
    ensures |r| == NUM_BUFFS
  {
    seq(NUM_BUFFS, b requires 0 <= b < NUM_BUFFS => MinScoreOf(pmfs[b]))
  }

  /** `buff_max_score`. */
  function BuffMaxScores(pmfs: seq<Pmf>): (r: seq<nat>)
    requires |pmfs| == NUM_BUFFS
    ensures |r| == NUM_BUFFS
  {
    seq(NUM_BUFFS, b requires 0 <= b < NUM_BUFFS => MaxScoreOf(pmfs[b]))
  }

  /** The sum of `scores[b]` over the buffs `b < n` in `mask`. */
  function MaskSum(mask: nat, scores: seq<nat>, n: nat): nat
    requires n <= |scores|
  {
    if n == 0 then 0 else MaskSum(mask, scores, n - 1) + (if Bit(mask, n - 1) then scores[n - 1] else 0)
  }

  /** Adding a buff adds its score. */
  lemma {:induction false} MaskSumAddBit(mask: nat, scores: seq<nat>, n: nat, i: nat)
    requires n <= |scores| && i < n && !Bit(mask, i)
    ensures MaskSum(mask + Pow2(i), scores, n) == MaskSum(mask, scores, n) + scores[i]
  {
    AddBit(mask, i);
    if n - 1 != i {
      MaskSumAddBit(mask, scores, n - 1, i);
    } else {
      MaskSumSameBits(mask, mask + Pow2(i), scores, n - 1);
    }
  }

  /** Masks agreeing on the first `n` bits have the same sum. */
  lemma {:induction false} MaskSumSameBits(a: nat, b: nat, scores: seq<nat>, n: nat)
    requires n <= |scores| && forall i :: 0 <= i < n ==> Bit(a, i) == Bit(b, i)
    ensures MaskSum(a, scores, n) == MaskSum(b, scores, n)
  {
    if n > 0 {
      MaskSumSameBits(a, b, scores, n - 1);
    }
  }

  /** Pointwise smaller scores give a smaller sum. */
  lemma {:induction false} MaskSumMonotone(mask: nat, low: seq<nat>, high: seq<nat>, n: nat)
    requires n <= |low| == |high| && forall i :: 0 <= i < |low| ==> low[i] <= high[i]
    ensures MaskSum(mask, low, n) <= MaskSum(mask, high, n)
  {
    if n > 0 {
      MaskSumMonotone(mask, low, high, n - 1);
    }
  }

  /** The smallest score a state with the buffs of `mask` can have. */
  function MaskMinScore(pmfs: seq<Pmf>, mask: nat): nat
    requires |pmfs| == NUM_BUFFS
  {
    MaskSum(mask, BuffMinScores(pmfs), NUM_BUFFS)
  }

  /** The largest score a state with the buffs of `mask` can have. */
  function MaskMaxScore(pmfs: seq<Pmf>, mask: nat): nat
    requires |pmfs| == NUM_BUFFS
  {
    MaskSum(mask, BuffMaxScores(pmfs), NUM_BUFFS)
  }

  /** The highest score the open slots can still add. */
  function BestCase(pmfs: seq<Pmf>, mask: nat): nat
    requires |pmfs| == NUM_BUFFS
  {
    BestCaseRemaining(mask, BuffMaxScores(pmfs))
  }

  // ---------------------------------------------------------------------
  // Masks and their open buffs

  /** Every bit of `remaining` is a buff type not yet in `mask`. */
  ghost predicate Open(mask: nat, remaining: nat)
  {
    forall i: nat :: Bit(remaining, i) ==> i < NUM_BUFFS && !Bit(mask, i)
  }

  /** `MASK_ALL ^ mask`: the buffs not in an in-domain mask. */
  lemma AllOpen(mask: nat)
    requires mask <= MASK_ALL
    ensures Open(mask, MASK_ALL - mask)
    ensures forall i: nat :: i < NUM_BUFFS && !Bit(mask, i) ==> Bit(MASK_ALL - mask, i)
  {
    ComplementOpen(mask, MASK_ALL - mask);
    forall i: nat | i < NUM_BUFFS && !Bit(mask, i) ensures Bit(MASK_ALL - mask, i) {
      ComplementBit(mask, i);
    }
  }

  lemma ComplementOpen(mask: nat, rest: nat)
    requires mask <= MASK_ALL && rest == MASK_ALL - mask
    ensures Open(mask, rest)
  {
    forall i: nat | Bit(rest, i) ensures i < NUM_BUFFS && !Bit(mask, i) {
      ComplementBit(mask, i);
    }
  }

  /** One bit of `MASK_ALL ^ mask`. */
  lemma ComplementBit(mask: nat, i: nat)
    requires mask <= MASK_ALL
    ensures Bit(MASK_ALL - mask, i) <==> (i < NUM_BUFFS && !Bit(mask, i))
  {
    ComplementInDomain(mask, NUM_BUFFS);
  }

  lemma ComplementInDomain(mask: nat, n: nat)
    requires mask <= MASK_ALL && n == NUM_BUFFS
    ensures forall i: nat :: Bit(MASK_ALL - mask, i) <==> (i < n && !Bit(mask, i))
  {
    DomainSize(n);
    Complement(mask, n);
    var rest := MASK_ALL - mask;
    assert Pow2(n) - 1 - mask == rest;
    forall i: nat ensures Bit(rest, i) <==> (i < n && !Bit(mask, i)) {
      if Bit(mask, i) {
        assert !Bit(rest, i);
      } else {
        assert Bit(rest, i) <==> i < n;
      }
    }
  }

  lemma DomainSize(n: nat)
    requires n == NUM_BUFFS
    ensures Pow2(n) == MASK_ALL + 1
  {
    assert Pow2(13) == 8192;
  }

  /** Taking the lowest open buff: it is open, and the rest stays open. */
  lemma TakeLowest(mask: nat, remaining: nat)
    requires remaining > 0 && Open(mask, remaining)
    ensures TrailingZeros(remaining) < NUM_BUFFS && !Bit(mask, TrailingZeros(remaining))
    ensures Bit(remaining, TrailingZeros(remaining))
    ensures remaining >= Lsb(remaining) && Open(mask, remaining - Lsb(remaining))
    ensures forall i: nat :: Bit(remaining - Lsb(remaining), i) <==> Bit(remaining, i) && i != TrailingZeros(remaining)
  {
    var i := TrailingZeros(remaining);
    LowestBit(remaining);
    RemoveBit(remaining, i);
    var rest := remaining - Lsb(remaining);
    assert rest == remaining - Pow2(i);
    forall j: nat ensures Bit(rest, j) <==> Bit(remaining, j) && j != i {
      assert Bit(remaining - Pow2(i), j) <==> Bit(remaining, j) && j != i;
    }
  }

  /** `mask | (1 << i)` for an open buff: one more bit, still in the domain. */
  lemma AddOpenBuff(mask: nat, i: nat)
    requires mask <= MASK_ALL && i < NUM_BUFFS && !Bit(mask, i)
    ensures Or(mask, Pow2(i)) == mask + Pow2(i) <= MASK_ALL
    ensures Popcount(mask + Pow2(i)) == Popcount(mask) + 1
    ensures forall j: nat :: Bit(mask + Pow2(i), j) <==> (Bit(mask, j) || j == i)
  {
    OrPow2(mask, i);
    AddBit(mask, i);
    InDomainMeansNoHighBits(mask);
    var grown := mask + Pow2(i);
    forall j: nat | j >= NUM_BUFFS ensures !Bit(grown, j) {
      assert !Bit(mask, j);
    }
    InDomainMeansNoHighBits(grown);
  }

  // ---------------------------------------------------------------------
  // The value

  /** The score a partial state is looked up under: scores at the target are all alike. */
  function Clamp(p: Problem, mask: nat, score: nat): nat
    requires WellShaped(p)
  {
    if score >= p.target then MaxNat(MaskMinScore(p.pmfs, mask), p.target) else score
  }

  /** `value_rec(mask, score)`. */
  function Value(p: Problem, mask: nat, score: nat): (r: real)
    requires WellShaped(p) && mask <= MASK_ALL && Popcount(mask) <= NUM_ECHO_SLOTS
    ensures r >= 0.0
    decreases NUM_ECHO_SLOTS - Popcount(mask), 2
  {
    if Popcount(mask) >= NUM_ECHO_SLOTS then (if score >= p.target then DP_VALUE_MULTIPLIER else 0.0)
    else StateValue(p, mask, Clamp(p, mask, score))
  }

  /** The value of a partial state at an already clamped score: what the cache stores. */
  function StateValue(p: Problem, mask: nat, score: nat): (r: real)
    requires WellShaped(p) && mask <= MASK_ALL && Popcount(mask) < NUM_ECHO_SLOTS
    ensures r >= 0.0
    decreases NUM_ECHO_SLOTS - Popcount(mask), 1
  {
    if score + BestCase(p.pmfs, mask) < p.target then 0.0
    else
      var advantage := Advantage(p, mask, score);
      if advantage >= 0.0 then advantage else 0.0
  }

  /** The expected value of revealing one more slot, less lambda times its weighted cost. */
  function Advantage(p: Problem, mask: nat, score: nat): real
    requires WellShaped(p) && mask <= MASK_ALL && Popcount(mask) < NUM_ECHO_SLOTS
    decreases NUM_ECHO_SLOTS - Popcount(mask), 0, MASK_ALL + 2
  {
    Expected(RevealTotal(p, mask, score), NUM_BUFFS - Popcount(mask)) - Penalty(p.lambda, p.revealCosts[Popcount(mask)])
  }

  /**
   * `total / open`: the mean over the `open` buffs still unrevealed, of which
   * there are 9 to 13 while a slot is free. Spelt out per divisor so that
   * every division is by a constant.
   */
  function Expected(total: real, open: nat): (r: real)
    requires NUM_BUFFS - NUM_ECHO_SLOTS < open <= NUM_BUFFS
  {
    if open == 13 then total / 13.0
    else if open == 12 then total / 12.0
    else if open == 11 then total / 11.0
    else if open == 10 then total / 10.0
    else total / 9.0
  }

  /** `Expected` is the mean: times the number of open buffs it gives back the total. */
  lemma ExpectedIsMean(total: real, open: nat)
    requires NUM_BUFFS - NUM_ECHO_SLOTS < open <= NUM_BUFFS
    ensures Expected(total, open) * open as real == total
  {
    if open == 13 {
      assert Expected(total, open) * 13.0 == total;
    } else if open == 12 {
      assert Expected(total, open) * 12.0 == total;
    } else if open == 11 {
      assert Expected(total, open) * 11.0 == total;
    } else if open == 10 {
      assert Expected(total, open) * 10.0 == total;
    } else {
      assert open == 9;
      assert Expected(total, open) * 9.0 == total;
    }
  }

  /** One outcome's share of a total: its probability times the value it leads to. */
  function Weighted(probability: real, value: real): real
  {
    probability * value
  }

  /** Lambda times the weighted cost of the next reveal: what revealing is charged. */
  function Penalty(lambda: real, cost: real): real
  {
    lambda * cost
  }

  /** The probability-weighted values of every state one reveal away. */
  function RevealTotal(p: Problem, mask: nat, score: nat): real
    requires WellShaped(p) && mask <= MASK_ALL && Popcount(mask) < NUM_ECHO_SLOTS
    decreases NUM_ECHO_SLOTS - Popcount(mask), 0, MASK_ALL + 1
  {
    AllOpen(mask);
    ExpansionTotal(p, mask, score, MASK_ALL - mask)
  }

  /** The probability-weighted values of revealing each buff in `remaining`, lowest buff first. */
  function ExpansionTotal(p: Problem, mask: nat, score: nat, remaining: nat): real
    requires WellShaped(p) && mask <= MASK_ALL && Popcount(mask) < NUM_ECHO_SLOTS
    requires Open(mask, remaining)
    decreases NUM_ECHO_SLOTS - Popcount(mask), 0, remaining
  {
    if remaining == 0 then 0.0
    else
      TakeLowest(mask, remaining);
      var i := TrailingZeros(remaining);
      BuffTotal(p, mask, score, i, |p.pmfs[i]|) + ExpansionTotal(p, mask, score, remaining - Lsb(remaining))
  }

  /** The first `n` entries of buff `i`'s PMF, each probability times the value of the state it leads to. */
  function BuffTotal(p: Problem, mask: nat, score: nat, i: nat, n: nat): real
    requires WellShaped(p) && mask <= MASK_ALL && Popcount(mask) < NUM_ECHO_SLOTS
    requires i < NUM_BUFFS && !Bit(mask, i) && n <= |p.pmfs[i]|
    decreases NUM_ECHO_SLOTS - Popcount(mask), 0, 0, n
  {
    if n == 0 then 0.0
    else
      AddOpenBuff(mask, i);
      BuffTotal(p, mask, score, i, n - 1) + Weighted(p.pmfs[i][n - 1].1, Value(p, mask + Pow2(i), score + p.pmfs[i][n - 1].0))
  }

  // ---------------------------------------------------------------------
  // Properties of the value

  /** One more outcome of buff `i`: its probability times the value of the state it leads to. */
  lemma BuffTotalStep(p: Problem, mask: nat, score: nat, i: nat, n: nat)
    requires WellShaped(p) && mask <= MASK_ALL && Popcount(mask) < NUM_ECHO_SLOTS
    requires i < NUM_BUFFS && !Bit(mask, i) && n < |p.pmfs[i]|
    ensures mask + Pow2(i) <= MASK_ALL && Popcount(mask + Pow2(i)) <= NUM_ECHO_SLOTS
    ensures BuffTotal(p, mask, score, i, n + 1)
      == BuffTotal(p, mask, score, i, n) + Weighted(p.pmfs[i][n].1, Value(p, mask + Pow2(i), score + p.pmfs[i][n].0))
  {
    AddOpenBuff(mask, i);
  }

  /** Clamping keeps a score inside the mask's cache range and on the same side of the target. */
  lemma ClampInRange(p: Problem, mask: nat, score: nat)
    requires WellShaped(p) && MaskMinScore(p.pmfs, mask) <= score <= MaskMaxScore(p.pmfs, mask)
    ensures MaskMinScore(p.pmfs, mask) <= Clamp(p, mask, score) <= MaskMaxScore(p.pmfs, mask)
    ensures Clamp(p, mask, score) >= p.target <==> score >= p.target
    ensures Clamp(p, mask, score) <= score
  {
  }

  /** Every key of buff `b`'s PMF lies in its score range. */
  lemma KeyInRange(p: Problem, b: nat, j: nat)
    requires WellShaped(p) && b < NUM_BUFFS && j < |p.pmfs[b]|
    ensures BuffMinScores(p.pmfs)[b] <= p.pmfs[b][j].0 <= BuffMaxScores(p.pmfs)[b]
  {
  }

  /** Revealing buff `i` with outcome key `delta` from a score in the mask's range lands in the child's range. */
  lemma ChildInRange(p: Problem, mask: nat, score: nat, i: nat, j: nat)
    requires WellShaped(p) && i < NUM_BUFFS && !Bit(mask, i) && j < |p.pmfs[i]|
    requires MaskMinScore(p.pmfs, mask) <= score <= MaskMaxScore(p.pmfs, mask)
    ensures MaskMinScore(p.pmfs, mask + Pow2(i)) <= score + p.pmfs[i][j].0 <= MaskMaxScore(p.pmfs, mask + Pow2(i))
  {
    KeyInRange(p, i, j);
    MaskSumAddBit(mask, BuffMinScores(p.pmfs), NUM_BUFFS, i);
    MaskSumAddBit(mask, BuffMaxScores(p.pmfs), NUM_BUFFS, i);
  }

  /** The probabilities of the first `n` entries, summed in order as the constructor does. */
  function ProbabilitySum(pmf: Pmf, n: nat): real
    requires n <= |pmf|
  {
    if n == 0 then 0.0 else ProbabilitySum(pmf, n - 1) + pmf[n - 1].1
  }

  /** The hypotheses under which the value is at most the reward: sub-stochastic PMFs and non-negative costs. */
  ghost predicate SubStochastic(p: Problem)
  {
    WellShaped(p) && p.lambda >= 0.0
    && (forall s :: 0 <= s < NUM_ECHO_SLOTS ==> p.revealCosts[s] >= 0.0)
    && (forall b :: 0 <= b < NUM_BUFFS ==> ProbabilitySum(p.pmfs[b], |p.pmfs[b]|) <= 1.0)
    && (forall b, j :: 0 <= b < NUM_BUFFS && 0 <= j < |p.pmfs[b]| ==> p.pmfs[b][j].1 >= 0.0)
  }

  /** The buffs outside an in-domain mask number 13 minus its popcount. */
  lemma {:induction false} ComplementPopcount(m: nat, n: nat)
    requires m < Pow2(n)
    ensures Popcount(Pow2(n) - 1 - m) + Popcount(m) == n
  {
    if n == 0 {
      assert m == 0;
    } else {
      assert Pow2(n) == 2 * Pow2(n - 1);
      var x := Pow2(n) - 1 - m;
      assert x % 2 == 1 - m % 2;
      assert x / 2 == Pow2(n - 1) - 1 - m / 2;
      ComplementPopcount(m / 2, n - 1);
    }
  }

  lemma OpenCount(mask: nat)
    requires mask <= MASK_ALL
    ensures Popcount(MASK_ALL - mask) == NUM_BUFFS - Popcount(mask)
  {
    DomainSize(NUM_BUFFS);
    ComplementPopcount(mask, NUM_BUFFS);
  }

  lemma ScaleBound(a: real, b: real, c: real)
    requires a >= 0.0 && b <= c
    ensures a * b <= a * c
  {
  }

  /** A finished or partial echo is never worth more than the reward for reaching the target. */
  lemma {:induction false} ValueAtMostReward(p: Problem, mask: nat, score: nat)
    requires SubStochastic(p) && mask <= MASK_ALL && Popcount(mask) <= NUM_ECHO_SLOTS
    ensures Value(p, mask, score) <= DP_VALUE_MULTIPLIER
    decreases NUM_ECHO_SLOTS - Popcount(mask), 2
  {
    if Popcount(mask) < NUM_ECHO_SLOTS {
      StateValueAtMostReward(p, mask, Clamp(p, mask, score));
    }
  }

  lemma {:induction false} StateValueAtMostReward(p: Problem, mask: nat, score: nat)
    requires SubStochastic(p) && mask <= MASK_ALL && Popcount(mask) < NUM_ECHO_SLOTS
    ensures StateValue(p, mask, score) <= DP_VALUE_MULTIPLIER
    decreases NUM_ECHO_SLOTS - Popcount(mask), 1
  {
    AdvantageAtMostReward(p, mask, score);
  }

  lemma {:induction false} AdvantageAtMostReward(p: Problem, mask: nat, score: nat)
    requires SubStochastic(p) && mask <= MASK_ALL && Popcount(mask) < NUM_ECHO_SLOTS
    ensures Advantage(p, mask, score) <= DP_VALUE_MULTIPLIER
    decreases NUM_ECHO_SLOTS - Popcount(mask), 0, MASK_ALL + 2
  {
    RevealAtMostReward(p, mask, score);
    MeanBound(RevealTotal(p, mask, score), NUM_BUFFS - Popcount(mask));
    PenaltyNonNegative(p.lambda, p.revealCosts[Popcount(mask)]);
  }

  lemma {:induction false} RevealAtMostReward(p: Problem, mask: nat, score: nat)
    requires SubStochastic(p) && mask <= MASK_ALL && Popcount(mask) < NUM_ECHO_SLOTS
    ensures RevealTotal(p, mask, score) <= DP_VALUE_MULTIPLIER * (NUM_BUFFS - Popcount(mask)) as real
    decreases NUM_ECHO_SLOTS - Popcount(mask), 0, MASK_ALL + 1
  {
    AllOpen(mask);
    OpenCount(mask);
    ExpansionAtMostReward(p, mask, score, MASK_ALL - mask);
  }

  lemma PenaltyNonNegative(lambda: real, cost: real)
    requires lambda >= 0.0 && cost >= 0.0
    ensures Penalty(lambda, cost) >= 0.0
  {
    ScaleBound(lambda, 0.0, cost);
  }

  lemma MeanBound(total: real, open: nat)
    requires NUM_BUFFS - NUM_ECHO_SLOTS < open <= NUM_BUFFS && total <= DP_VALUE_MULTIPLIER * open as real
    ensures Expected(total, open) <= DP_VALUE_MULTIPLIER
  {
  }

  lemma {:induction false} ExpansionAtMostReward(p: Problem, mask: nat, score: nat, remaining: nat)
    requires SubStochastic(p) && mask <= MASK_ALL && Popcount(mask) < NUM_ECHO_SLOTS
    requires Open(mask, remaining)
    ensures ExpansionTotal(p, mask, score, remaining) <= DP_VALUE_MULTIPLIER * Popcount(remaining) as real
    decreases NUM_ECHO_SLOTS - Popcount(mask), 0, remaining
  {
    if remaining > 0 {
      TakeLowest(mask, remaining);
      var i := TrailingZeros(remaining);
      RemoveBit(remaining, i);
      BuffAtMostReward(p, mask, score, i, |p.pmfs[i]|);
      ExpansionAtMostReward(p, mask, score, remaining - Lsb(remaining));
    }
  }

  lemma {:induction false} BuffAtMostReward(p: Problem, mask: nat, score: nat, i: nat, n: nat)
    requires SubStochastic(p) && mask <= MASK_ALL && Popcount(mask) < NUM_ECHO_SLOTS
    requires i < NUM_BUFFS && !Bit(mask, i) && n <= |p.pmfs[i]|
    ensures BuffTotal(p, mask, score, i, n) <= DP_VALUE_MULTIPLIER * ProbabilitySum(p.pmfs[i], n)
    decreases NUM_ECHO_SLOTS - Popcount(mask), 0, 0, n
  {
    if n > 0 {
      AddOpenBuff(mask, i);
      BuffAtMostReward(p, mask, score, i, n - 1);
      var outcome := p.pmfs[i][n - 1];
      ValueAtMostReward(p, mask + Pow2(i), score + outcome.0);
      WeightedStep(BuffTotal(p, mask, score, i, n - 1), ProbabilitySum(p.pmfs[i], n - 1),
        outcome.1, Value(p, mask + Pow2(i), score + outcome.0));
    }
  }

  lemma WeightedStep(total: real, mass: real, probability: real, value: real)
    requires total <= DP_VALUE_MULTIPLIER * mass && probability >= 0.0 && value <= DP_VALUE_MULTIPLIER
    ensures total + Weighted(probability, value) <= DP_VALUE_MULTIPLIER * (mass + probability)
  {
    ScaleBound(probability, value, DP_VALUE_MULTIPLIER);
  }

  /** The decision `value_rec` records for a partial state: not pruned, and revealing is worth its cost. */
  predicate Continues(p: Problem, mask: nat, score: nat)
    requires WellShaped(p) && mask <= MASK_ALL && Popcount(mask) < NUM_ECHO_SLOTS
  {
    score + BestCase(p.pmfs, mask) >= p.target && Advantage(p, mask, score) >= 0.0
  }

  /** A continuing state is worth its advantage, any other partial state nothing. */
  lemma StateValueOfDecision(p: Problem, mask: nat, score: nat)
    requires WellShaped(p) && mask <= MASK_ALL && Popcount(mask) < NUM_ECHO_SLOTS
    ensures StateValue(p, mask, score) == if Continues(p, mask, score) then Advantage(p, mask, score) else 0.0
  {
  }

  lemma {:induction false} MaskSumOfZero(scores: seq<nat>, n: nat)
    requires n <= |scores|
    ensures MaskSum(0, scores, n) == 0
  {
    if n > 0 {
      ZeroHasNoBits(n - 1);
      MaskSumOfZero(scores, n - 1);
    }
  }

  /** The empty mask has the single score 0. */
  lemma EmptyMaskRange(pmfs: seq<Pmf>)
    requires |pmfs| == NUM_BUFFS
    ensures MaskMinScore(pmfs, 0) == 0 && MaskMaxScore(pmfs, 0) == 0
  {
    MaskSumOfZero(BuffMinScores(pmfs), NUM_BUFFS);
    MaskSumOfZero(BuffMaxScores(pmfs), NUM_BUFFS);
  }
}
