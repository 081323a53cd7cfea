/**
 * The expected resources of following a derived policy: the probability of
 * finishing the echo at or above the target, and the tuners and experience
 * spent on the way, per attempt. `Outcome` defines them as recursive
 * functions over the cut-offs the policy recorded; the memoised walk
 * `ExpectedResourcesRec` is proved to return them and to keep every memo
 * entry it fills equal to them.
 */
module ExpectedCost {
  import opened Base
  import opened Bits
  import opened Data
  import opened Mask
  import opened Scoring
  import opened PolicyValue

  /**
   * `ExpectedUpgradeCostState`: the success probability and expected
   * resources from a state on; `None` is the NaN marking an entry not yet computed.
   */
  datatype CostState = CostState(successProbability: Option<real>, tuner: real, exp: real)

  /** Probability-weighted sums of the three components over the outcomes of the next reveal. */
  datatype Totals = Totals(success: real, tuner: real, exp: real)

  /** `ExpectedCostCacheEntry`: an abandoned mask, or its cut-off and one state per score from it to the target. */
  datatype MemoEntry =
    | Abandon
    | Reachable(cutOff: nat, states: seq<CostState>)

  /**
   * What the walk reads from the solver, which it does not change: the PMFs,
   * the target, the recorded cut-off of each partial mask (by index), the net
   * tuner cost, the experience cost of each slot, and the full-upgrade
   * experience cost from each number of revealed slots.
   */
  datatype Walk = Walk(pmfs: seq<Pmf>, target: nat, cutOffs: seq<Option<nat>>,
                       tunerCost: real, expCosts: seq<real>, fullExpCosts: seq<real>)

  predicate WalkShaped(w: Walk)
  {
    && |w.pmfs| == NUM_BUFFS && |w.cutOffs| == NUM_PARTIAL_MASKS
    && |w.expCosts| == NUM_ECHO_SLOTS && |w.fullExpCosts| == NUM_ECHO_SLOTS + 1
  }

  /** `ExpectedUpgradeCostState::default()`: not computed, nothing spent. */
  const DEFAULT_STATE: CostState := CostState(None, 0.0, 0.0)

  /** `failed_state`: no chance of success, nothing spent. */
  const FAILED_STATE: CostState := CostState(Some(0.0), 0.0, 0.0)

  /** `guaranteed_success_state`: success is certain, and every remaining slot is paid for. */
  function GuaranteedState(w: Walk, filled: nat): CostState
    requires WalkShaped(w) && filled < NUM_ECHO_SLOTS
  {
    CostState(Some(1.0), (NUM_ECHO_SLOTS - filled) as real * w.tunerCost, w.fullExpCosts[filled])
  }

  /** The recorded cut-off of an external partial mask. */
  function CutOf(w: Walk, mask: nat): Option<nat>
    requires WalkShaped(w) && IsValidExternalPartialMask(mask)
  {
    PartialIndexInRange(mask);
    w.cutOffs[Rank(Partial, mask)]
  }

  const NO_TOTALS: Totals := Totals(0.0, 0.0, 0.0)

  /** One outcome's share: its probability times each component of the state it leads to. */
  function AddOutcome(t: Totals, probability: real, s: CostState): Totals
    requires s.successProbability.Some?
  {
    Totals(t.success + Weighted(probability, s.successProbability.value),
           t.tuner + Weighted(probability, s.tuner),
           t.exp + Weighted(probability, s.exp))
  }

  function Plus(a: Totals, b: Totals): Totals
  {
    Totals(a.success + b.success, a.tuner + b.tuner, a.exp + b.exp)
  }

  /**
   * The end of a reveal from a state with `filled` slots revealed: the mean
   * over the open buffs, plus the tuner and the experience this reveal costs.
   */
  function Finish(w: Walk, filled: nat, t: Totals): (r: CostState)
    requires WalkShaped(w) && filled < NUM_ECHO_SLOTS
    ensures r.successProbability.Some?
  {
    var open := NUM_BUFFS - filled;
    CostState(Some(Expected(t.success, open)), Expected(t.tuner, open) + w.tunerCost,
              Expected(t.exp, open) + w.expCosts[filled])
  }

  /**
   * `expected_resources_rec(mask, score)`: a finished echo succeeds exactly at
   * the target; a partial one fails when abandoned or below its cut-off, is
   * certain at the target, and otherwise reveals one more slot.
   */
  function Outcome(w: Walk, mask: nat, score: nat): (r: CostState)
    requires WalkShaped(w) && mask <= MASK_ALL && Popcount(mask) <= NUM_ECHO_SLOTS && mask != 0
    ensures r.successProbability.Some?
    decreases NUM_ECHO_SLOTS - Popcount(mask), 1
  {
    if Popcount(mask) >= NUM_ECHO_SLOTS then CostState(Some(if score >= w.target then 1.0 else 0.0), 0.0, 0.0)
    else
      match CutOf(w, mask)
      case None => FAILED_STATE
      case Some(cut) =>
        if score < cut then FAILED_STATE
        else if score >= w.target then GuaranteedState(w, Popcount(mask))
        else Step(w, mask, score)
  }

  /** Revealing one more slot from a partial state (also the root, mask 0). */
  function Step(w: Walk, mask: nat, score: nat): (r: CostState)
    requires WalkShaped(w) && mask <= MASK_ALL && Popcount(mask) < NUM_ECHO_SLOTS
    ensures r.successProbability.Some?
    decreases NUM_ECHO_SLOTS - Popcount(mask), 0, MASK_ALL + 2
  {
    Finish(w, Popcount(mask), StepTotals(w, mask, score))
  }

  function StepTotals(w: Walk, mask: nat, score: nat): Totals
    requires WalkShaped(w) && mask <= MASK_ALL && Popcount(mask) < NUM_ECHO_SLOTS
    decreases NUM_ECHO_SLOTS - Popcount(mask), 0, MASK_ALL + 1
  {
    AllOpen(mask);
    ExpansionTotals(w, mask, score, MASK_ALL - mask)
  }

  /** The weighted outcomes of revealing each buff in `remaining`, lowest first. */
  function ExpansionTotals(w: Walk, mask: nat, score: nat, remaining: nat): Totals
    requires WalkShaped(w) && mask <= MASK_ALL && Popcount(mask) < NUM_ECHO_SLOTS
    requires Open(mask, remaining)
    decreases NUM_ECHO_SLOTS - Popcount(mask), 0, remaining
  {
    if remaining == 0 then NO_TOTALS
    else
      TakeLowest(mask, remaining);
      var i := TrailingZeros(remaining);
      Plus(BuffTotals(w, mask, score, i, |w.pmfs[i]|), ExpansionTotals(w, mask, score, remaining - Lsb(remaining)))
  }

  /** The first `n` outcomes of buff `i`, each weighted by its probability. */
  function BuffTotals(w: Walk, mask: nat, score: nat, i: nat, n: nat): Totals
    requires WalkShaped(w) && mask <= MASK_ALL && Popcount(mask) < NUM_ECHO_SLOTS
    requires i < NUM_BUFFS && !Bit(mask, i) && n <= |w.pmfs[i]|
    decreases NUM_ECHO_SLOTS - Popcount(mask), 0, 0, n
  {
    if n == 0 then NO_TOTALS
    else
      AddOpenBuff(mask, i);
      AddOutcome(BuffTotals(w, mask, score, i, n - 1), w.pmfs[i][n - 1].1,
                 Outcome(w, mask + Pow2(i), score + w.pmfs[i][n - 1].0))
  }

  lemma BuffTotalsStep(w: Walk, mask: nat, score: nat, i: nat, n: nat)
    requires WalkShaped(w) && mask <= MASK_ALL && Popcount(mask) < NUM_ECHO_SLOTS
    requires i < NUM_BUFFS && !Bit(mask, i) && n < |w.pmfs[i]|
    ensures mask + Pow2(i) <= MASK_ALL && Popcount(mask + Pow2(i)) <= NUM_ECHO_SLOTS && mask + Pow2(i) != 0
    ensures BuffTotals(w, mask, score, i, n + 1)
      == AddOutcome(BuffTotals(w, mask, score, i, n), w.pmfs[i][n].1, Outcome(w, mask + Pow2(i), score + w.pmfs[i][n].0))
  {
    AddOpenBuff(mask, i);
  }

  /** Taking the lowest open buff splits off its outcomes. */
  lemma ExpansionTotalsStep(w: Walk, mask: nat, score: nat, remaining: nat)
    requires WalkShaped(w) && mask <= MASK_ALL && Popcount(mask) < NUM_ECHO_SLOTS
    requires Open(mask, remaining) && remaining != 0
    ensures TrailingZeros(remaining) < NUM_BUFFS && !Bit(mask, TrailingZeros(remaining))
    ensures remaining >= Lsb(remaining) && Open(mask, remaining - Lsb(remaining)) && remaining - Lsb(remaining) < remaining
    ensures ExpansionTotals(w, mask, score, remaining)
      == Plus(BuffTotals(w, mask, score, TrailingZeros(remaining), |w.pmfs[TrailingZeros(remaining)]|),
              ExpansionTotals(w, mask, score, remaining - Lsb(remaining)))
  {
    TakeLowest(mask, remaining);
    LowestBit(remaining);
  }

  lemma PlusAssociates(a: Totals, b: Totals, c: Totals)
    ensures Plus(Plus(a, b), c) == Plus(a, Plus(b, c))
  {
  }

  lemma PlusAddOutcome(a: Totals, b: Totals, probability: real, s: CostState)
    requires s.successProbability.Some?
    ensures AddOutcome(Plus(a, b), probability, s) == Plus(a, AddOutcome(b, probability, s))
  {
  }

  // ---------------------------------------------------------------------
  // The memo

  /**
   * The entry `calculate_expected_resources` starts each partial mask with:
   * the root holds one uncomputed state; an abandoned mask is `Abandon`; a
   * mask whose cut-off is below the target holds one state per score from
   * the cut-off to the target; any other mask keeps its cut-off and no states.
   */
  function InitialEntry(target: nat, mask: nat, cutOff: Option<nat>): (e: MemoEntry)
    ensures mask == 0 ==> e == Reachable(0, [DEFAULT_STATE])
    ensures mask != 0 && cutOff.None? ==> e == Abandon
    ensures mask != 0 && cutOff.Some? ==>
      && e.Reachable? && e.cutOff == cutOff.value
      && |e.states| == (if cutOff.value < target then target - cutOff.value + 1 else 0)
      && forall k :: 0 <= k < |e.states| ==> e.states[k] == DEFAULT_STATE
  {
    if mask == 0 then Reachable(0, [DEFAULT_STATE])
    else
      match cutOff
      case None => Abandon
      case Some(cut) =>
        if cut < target then Reachable(cut, seq(target - cut + 1, _ => DEFAULT_STATE))
        else Reachable(cut, [])
  }

  /** Entries agree in kind, cut-off and number of states. */
  predicate SameShape(a: MemoEntry, b: MemoEntry)
  {
    a.Abandon? == b.Abandon? && (a.Reachable? && b.Reachable? ==> a.cutOff == b.cutOff && |a.states| == |b.states|)
  }

  /** The memo keeps the layout it was built with: entry `i` has the shape of mask index `i`'s initial entry. */
  ghost predicate Laid(w: Walk, memo: seq<MemoEntry>)
    requires WalkShaped(w)
  {
    && |memo| == NUM_PARTIAL_MASKS
    && memo[0].Reachable? && memo[0].cutOff == 0 && |memo[0].states| == 1
    && forall i :: 0 < i < |memo| ==> SameShape(memo[i], InitialEntry(w.target, i, w.cutOffs[i]))
  }

  /** Every computed state of a nonzero mask's entry is that state's outcome. */
  ghost predicate StatesSound(w: Walk, mask: nat, e: MemoEntry)
    requires WalkShaped(w) && IsValidExternalPartialMask(mask) && mask != 0
  {
    e.Reachable? ==>
      forall k :: 0 <= k < |e.states| && e.states[k].successProbability.Some? ==> e.states[k] == Outcome(w, mask, e.cutOff + k)
  }

  ghost predicate MemoSound(w: Walk, memo: seq<MemoEntry>)
    requires WalkShaped(w)
  {
    && Laid(w, memo)
    && forall mask :: IsValidExternalPartialMask(mask) && mask != 0 && Rank(Partial, mask) < |memo| ==>
         StatesSound(w, mask, memo[Rank(Partial, mask)])
  }

  /** Only the empty mask has index 0. */
  lemma NonzeroRank(mask: nat)
    requires IsValidExternalPartialMask(mask) && mask != 0
    ensures Rank(Partial, mask) != 0
  {
    if Rank(Partial, mask) == 0 {
      ZeroHasNoBits(0);
      assert Rank(Partial, 0) == 0;
      RankInjective(Partial, 0, mask);
    }
  }

  /** A state of the memo the walk reads lies inside its entry: `cut <= score < target` fits `target - cut + 1` states. */
  lemma KeyInEntry(w: Walk, memo: seq<MemoEntry>, mask: nat, score: nat)
    requires WalkShaped(w) && Laid(w, memo) && IsValidExternalPartialMask(mask) && mask != 0
    requires Rank(Partial, mask) < |memo| && memo[Rank(Partial, mask)].Reachable?
    requires memo[Rank(Partial, mask)].cutOff <= score < w.target
    ensures CutOf(w, mask) == Some(memo[Rank(Partial, mask)].cutOff)
    ensures score - memo[Rank(Partial, mask)].cutOff < |memo[Rank(Partial, mask)].states|
  {
    NonzeroRank(mask);
    var i := Rank(Partial, mask);
    assert SameShape(memo[i], InitialEntry(w.target, i, w.cutOffs[i]));
  }

  /** An abandoned entry means no cut-off was recorded. */
  lemma AbandonedEntry(w: Walk, memo: seq<MemoEntry>, mask: nat)
    requires WalkShaped(w) && Laid(w, memo) && IsValidExternalPartialMask(mask) && mask != 0
    requires Rank(Partial, mask) < |memo|
    ensures memo[Rank(Partial, mask)].Abandon? <==> CutOf(w, mask).None?
    ensures memo[Rank(Partial, mask)].Reachable? ==> CutOf(w, mask) == Some(memo[Rank(Partial, mask)].cutOff)
  {
    NonzeroRank(mask);
    var i := Rank(Partial, mask);
    assert SameShape(memo[i], InitialEntry(w.target, i, w.cutOffs[i]));
  }

  /** Writing a state's own outcome into its entry keeps the memo sound. */
  lemma WriteOutcomeSound(w: Walk, memo: seq<MemoEntry>, mask: nat, key: nat, st: CostState)
    requires WalkShaped(w) && MemoSound(w, memo) && IsValidExternalPartialMask(mask) && mask != 0
    requires Rank(Partial, mask) < |memo| && memo[Rank(Partial, mask)].Reachable?
    requires key < |memo[Rank(Partial, mask)].states|
    requires st == Outcome(w, mask, memo[Rank(Partial, mask)].cutOff + key)
    ensures var e := memo[Rank(Partial, mask)];
      MemoSound(w, memo[Rank(Partial, mask) := Reachable(e.cutOff, e.states[key := st])])
  {
    var index := Rank(Partial, mask);
    var e := memo[index];
    var written := memo[index := Reachable(e.cutOff, e.states[key := st])];
    NonzeroRank(mask);
    assert SameShape(written[index], memo[index]);
    assert Laid(w, written) by {
      forall i | 0 < i < |written|
        ensures SameShape(written[i], InitialEntry(w.target, i, w.cutOffs[i]))
      {
        if i == index {
          assert SameShape(memo[i], InitialEntry(w.target, i, w.cutOffs[i]));
        } else {
          assert written[i] == memo[i];
        }
      }
    }
    forall m | IsValidExternalPartialMask(m) && m != 0 && Rank(Partial, m) < |written|
      ensures StatesSound(w, m, written[Rank(Partial, m)])
    {
      if Rank(Partial, m) == index {
        RankInjective(Partial, m, mask);
        assert StatesSound(w, mask, e);
      } else {
        assert written[Rank(Partial, m)] == memo[Rank(Partial, m)];
      }
    }
  }

  /**
   * `expected_resources_rec`: the outcome of (mask, score), read from the memo
   * when it is there and computed and stored when it is not.
   */
  method ExpectedResourcesRec(w: Walk, memo: array<MemoEntry>, mask: nat, score: nat) returns (st: CostState)
    requires WalkShaped(w) && mask <= MASK_ALL && Popcount(mask) <= NUM_ECHO_SLOTS && mask != 0
    requires MemoSound(w, memo[..])
    modifies memo
    ensures MemoSound(w, memo[..])
    ensures st == Outcome(w, mask, score)
    decreases NUM_ECHO_SLOTS - Popcount(mask), 4
  {
    var filled := Popcount(mask);
    if filled >= NUM_ECHO_SLOTS {
      return CostState(Some(if score >= w.target then 1.0 else 0.0), 0.0, 0.0);
    }
    var found, key := LookupOutcome(w, memo, mask, score);
    if found.Some? {
      return found.value;
    }
    var total := ExpandOutcomes(w, memo, mask, score);
    st := Finish(w, filled, total);
    StoreOutcome(w, memo, mask, score, key, st);
  }

  /**
   * The first half of `expected_resources_rec` for a partial mask: the
   * outcome when the entry settles it (abandoned, below the cut-off, at the
   * target, or already computed), and otherwise the key of its memo state.
   */
  method LookupOutcome(w: Walk, memo: array<MemoEntry>, mask: nat, score: nat) returns (found: Option<CostState>, key: nat)
    requires WalkShaped(w) && IsValidExternalPartialMask(mask) && mask != 0
    requires MemoSound(w, memo[..])
    ensures found.Some? ==> found.value == Outcome(w, mask, score)
    ensures found.None? ==>
      && CutOf(w, mask).Some? && CutOf(w, mask).value <= score < w.target
      && key == score - CutOf(w, mask).value
      && Outcome(w, mask, score) == Step(w, mask, score)
  {
    key := 0;
    PartialIndexInRange(mask);
    var index := MaskToIndex(Partial, mask);
    AbandonedEntry(w, memo[..], mask);
    var entry := memo[index];
    if entry.Abandon? {
      return Some(FAILED_STATE), key;
    }
    if score < entry.cutOff {
      return Some(FAILED_STATE), key;
    }
    if score >= w.target {
      return Some(GuaranteedState(w, Popcount(mask))), key;
    }
    KeyInEntry(w, memo[..], mask, score);
    key := score - entry.cutOff;
    var state := entry.states[key];
    if state.successProbability.Some? {
      assert StatesSound(w, mask, memo[..][index]);
      return Some(state), key;
    }
    found := None;
  }

  /** The write at the end of `expected_resources_rec`: the computed outcome goes to its state's key. */
  method StoreOutcome(w: Walk, memo: array<MemoEntry>, mask: nat, score: nat, key: nat, st: CostState)
    requires WalkShaped(w) && MemoSound(w, memo[..]) && IsValidExternalPartialMask(mask) && mask != 0
    requires CutOf(w, mask).Some? && CutOf(w, mask).value <= score < w.target
    requires key == score - CutOf(w, mask).value && st == Outcome(w, mask, score)
    modifies memo
    ensures MemoSound(w, memo[..])
  {
    PartialIndexInRange(mask);
    var index := MaskToIndex(Partial, mask);
    AbandonedEntry(w, memo[..], mask);
    KeyInEntry(w, memo[..], mask, score);
    WriteOutcomeSound(w, memo[..], mask, key, st);
    var e := memo[index];
    memo[index] := Reachable(e.cutOff, e.states[key := st]);
    assert memo[..] == old(memo[..])[index := Reachable(e.cutOff, e.states[key := st])];
  }

  /** The loop of `expected_resources_rec` over the open buffs, lowest first. */
  method ExpandOutcomes(w: Walk, memo: array<MemoEntry>, mask: nat, score: nat) returns (total: Totals)
    requires WalkShaped(w) && mask <= MASK_ALL && Popcount(mask) < NUM_ECHO_SLOTS
    requires MemoSound(w, memo[..])
    modifies memo
    ensures MemoSound(w, memo[..])
    ensures total == StepTotals(w, mask, score)
    decreases NUM_ECHO_SLOTS - Popcount(mask), 3
  {
    total := NO_TOTALS;
    var remaining: nat := MASK_ALL - mask;
    AllOpen(mask);
    while remaining != 0
      invariant MemoSound(w, memo[..]) && Open(mask, remaining)
      invariant Plus(total, ExpansionTotals(w, mask, score, remaining)) == ExpansionTotals(w, mask, score, MASK_ALL - mask)
      decreases remaining
    {
      remaining, total := ExpandLowest(w, memo, mask, score, remaining, total);
    }
  }

  /** One pass of the bit-walking loop: take the lowest remaining buff and add its outcomes. */
  method ExpandLowest(w: Walk, memo: array<MemoEntry>, mask: nat, score: nat, remaining: nat, total: Totals)
    returns (rest: nat, t: Totals)
    requires WalkShaped(w) && mask <= MASK_ALL && Popcount(mask) < NUM_ECHO_SLOTS
    requires MemoSound(w, memo[..]) && Open(mask, remaining) && remaining != 0
    modifies memo
    ensures MemoSound(w, memo[..]) && Open(mask, rest) && rest < remaining
    ensures Plus(t, ExpansionTotals(w, mask, score, rest)) == Plus(total, ExpansionTotals(w, mask, score, remaining))
    decreases NUM_ECHO_SLOTS - Popcount(mask), 2
  {
    var lsb := Lsb(remaining);
    var idx := TrailingZeros(remaining);
    ExpansionTotalsStep(w, mask, score, remaining);
    rest := remaining - lsb;
    t := AddBuffOutcomes(w, memo, mask, score, idx, total);
    LowestTotals(w, mask, score, remaining, total, t);
  }

  /** Adding the lowest remaining buff's outcomes moves them from the remaining total to the running one. */
  lemma LowestTotals(w: Walk, mask: nat, score: nat, remaining: nat, total: Totals, t: Totals)
    requires WalkShaped(w) && mask <= MASK_ALL && Popcount(mask) < NUM_ECHO_SLOTS
    requires Open(mask, remaining) && remaining != 0
    requires TrailingZeros(remaining) < NUM_BUFFS && !Bit(mask, TrailingZeros(remaining))
    requires t == Plus(total, BuffTotals(w, mask, score, TrailingZeros(remaining), |w.pmfs[TrailingZeros(remaining)]|))
    ensures remaining >= Lsb(remaining) && Open(mask, remaining - Lsb(remaining))
    ensures Plus(t, ExpansionTotals(w, mask, score, remaining - Lsb(remaining)))
      == Plus(total, ExpansionTotals(w, mask, score, remaining))
  {
    ExpansionTotalsStep(w, mask, score, remaining);
    var idx := TrailingZeros(remaining);
    PlusAssociates(total, BuffTotals(w, mask, score, idx, |w.pmfs[idx]|),
                   ExpansionTotals(w, mask, score, remaining - Lsb(remaining)));
  }

  /** The inner loop: each outcome of buff `idx`, weighted by its probability. */
  method AddBuffOutcomes(w: Walk, memo: array<MemoEntry>, mask: nat, score: nat, idx: nat, total: Totals)
    returns (t: Totals)
    requires WalkShaped(w) && mask <= MASK_ALL && Popcount(mask) < NUM_ECHO_SLOTS
    requires idx < NUM_BUFFS && !Bit(mask, idx)
    requires MemoSound(w, memo[..])
    modifies memo
    ensures MemoSound(w, memo[..])
    ensures t == Plus(total, BuffTotals(w, mask, score, idx, |w.pmfs[idx]|))
    decreases NUM_ECHO_SLOTS - Popcount(mask), 1
  {
    t := total;
    for j := 0 to |w.pmfs[idx]|
      invariant MemoSound(w, memo[..])
      invariant t == Plus(total, BuffTotals(w, mask, score, idx, j))
    {
      t := AddOneOutcome(w, memo, mask, score, idx, j, total, t);
    }
  }

  /** One pass of the inner loop: the `j`-th outcome of buff `idx`, weighted by its probability. */
  method AddOneOutcome(w: Walk, memo: array<MemoEntry>, mask: nat, score: nat, idx: nat, j: nat, total: Totals, t: Totals)
    returns (t': Totals)
    requires WalkShaped(w) && mask <= MASK_ALL && Popcount(mask) < NUM_ECHO_SLOTS
    requires idx < NUM_BUFFS && !Bit(mask, idx) && j < |w.pmfs[idx]|
    requires MemoSound(w, memo[..]) && t == Plus(total, BuffTotals(w, mask, score, idx, j))
    modifies memo
    ensures MemoSound(w, memo[..])
    ensures t' == Plus(total, BuffTotals(w, mask, score, idx, j + 1))
    decreases NUM_ECHO_SLOTS - Popcount(mask), 0
  {
    AddOpenBuff(mask, idx);
    var (delta, probability) := w.pmfs[idx][j];
    BuffTotalsStep(w, mask, score, idx, j);
    var next := ExpectedResourcesRec(w, memo, mask + Pow2(idx), score + delta);
    PlusAddOutcome(total, BuffTotals(w, mask, score, idx, j), probability, next);
    t' := AddOutcome(t, probability, next);
  }

  // ---------------------------------------------------------------------
  // Properties of the outcome

  /** Non-negative probabilities whose sum over each PMF is at most one, and non-negative costs. */
  ghost predicate Stochastic(w: Walk)
  {
    && WalkShaped(w) && w.tunerCost >= 0.0
    && (forall s :: 0 <= s < NUM_ECHO_SLOTS ==> w.expCosts[s] >= 0.0)
    && (forall u :: 0 <= u <= NUM_ECHO_SLOTS ==> w.fullExpCosts[u] >= 0.0)
    && (forall b :: 0 <= b < NUM_BUFFS ==> ProbabilitySum(w.pmfs[b], |w.pmfs[b]|) <= 1.0)
    && (forall b, j :: 0 <= b < NUM_BUFFS && 0 <= j < |w.pmfs[b]| ==> w.pmfs[b][j].1 >= 0.0)
  }

  /** A well-formed state: a probability, and non-negative resources. */
  predicate Bounded(s: CostState)
  {
    s.successProbability.Some? && 0.0 <= s.successProbability.value <= 1.0 && s.tuner >= 0.0 && s.exp >= 0.0
  }

  /** Totals over outcomes of total probability `mass`: success at most `mass`, nothing negative. */
  predicate TotalsWithin(t: Totals, mass: real)
  {
    0.0 <= t.success <= mass && t.tuner >= 0.0 && t.exp >= 0.0
  }

  /** Under exact PMFs, every outcome has a success probability in [0, 1] and non-negative resources. */
  lemma {:induction false} OutcomeBounded(w: Walk, mask: nat, score: nat)
    requires Stochastic(w) && mask <= MASK_ALL && Popcount(mask) <= NUM_ECHO_SLOTS && mask != 0
    ensures Bounded(Outcome(w, mask, score))
    decreases NUM_ECHO_SLOTS - Popcount(mask), 1
  {
    if Popcount(mask) < NUM_ECHO_SLOTS {
      var cut := CutOf(w, mask);
      if cut.Some? && cut.value <= score {
        if score < w.target {
          StepBounded(w, mask, score);
          assert Outcome(w, mask, score) == Step(w, mask, score);
        } else {
          GuaranteedBounded(w, Popcount(mask));
          assert Outcome(w, mask, score) == GuaranteedState(w, Popcount(mask));
        }
      }
    }
  }

  lemma GuaranteedBounded(w: Walk, filled: nat)
    requires Stochastic(w) && filled < NUM_ECHO_SLOTS
    ensures Bounded(GuaranteedState(w, filled))
  {
    ScaleBound((NUM_ECHO_SLOTS - filled) as real, 0.0, w.tunerCost);
  }

  lemma {:induction false} StepBounded(w: Walk, mask: nat, score: nat)
    requires Stochastic(w) && mask <= MASK_ALL && Popcount(mask) < NUM_ECHO_SLOTS
    ensures Bounded(Step(w, mask, score))
    decreases NUM_ECHO_SLOTS - Popcount(mask), 0, MASK_ALL + 2
  {
    var open := NUM_BUFFS - Popcount(mask);
    var t := StepTotals(w, mask, score);
    StepTotalsBounded(w, mask, score);
    MeanWithin(t.success, open, 1.0);
    MeanWithin(t.tuner, open, 0.0);
    MeanWithin(t.exp, open, 0.0);
  }

  lemma {:induction false} StepTotalsBounded(w: Walk, mask: nat, score: nat)
    requires Stochastic(w) && mask <= MASK_ALL && Popcount(mask) < NUM_ECHO_SLOTS
    ensures TotalsWithin(StepTotals(w, mask, score), (NUM_BUFFS - Popcount(mask)) as real)
    decreases NUM_ECHO_SLOTS - Popcount(mask), 0, MASK_ALL + 1
  {
    AllOpen(mask);
    OpenCount(mask);
    ExpansionBounded(w, mask, score, MASK_ALL - mask);
  }

  /** A total of at most `bound` per open buff has a mean of at most `bound`, and a non-negative total a non-negative mean. */
  lemma MeanWithin(total: real, open: nat, bound: real)
    requires NUM_BUFFS - NUM_ECHO_SLOTS < open <= NUM_BUFFS && bound >= 0.0
    requires 0.0 <= total && (bound > 0.0 ==> total <= bound * open as real)
    ensures 0.0 <= Expected(total, open) && (bound > 0.0 ==> Expected(total, open) <= bound)
  {
    ExpectedIsMean(total, open);
  }

  lemma {:induction false} ExpansionBounded(w: Walk, mask: nat, score: nat, remaining: nat)
    requires Stochastic(w) && mask <= MASK_ALL && Popcount(mask) < NUM_ECHO_SLOTS
    requires Open(mask, remaining)
    ensures TotalsWithin(ExpansionTotals(w, mask, score, remaining), Popcount(remaining) as real)
    decreases NUM_ECHO_SLOTS - Popcount(mask), 0, remaining
  {
    if remaining > 0 {
      TakeLowest(mask, remaining);
      var i := TrailingZeros(remaining);
      RemoveBit(remaining, i);
      BuffBounded(w, mask, score, i, |w.pmfs[i]|);
      ExpansionBounded(w, mask, score, remaining - Lsb(remaining));
    }
  }

  lemma {:induction false} BuffBounded(w: Walk, mask: nat, score: nat, i: nat, n: nat)
    requires Stochastic(w) && mask <= MASK_ALL && Popcount(mask) < NUM_ECHO_SLOTS
    requires i < NUM_BUFFS && !Bit(mask, i) && n <= |w.pmfs[i]|
    ensures TotalsWithin(BuffTotals(w, mask, score, i, n), ProbabilitySum(w.pmfs[i], n))
    ensures ProbabilitySum(w.pmfs[i], n) >= 0.0
    decreases NUM_ECHO_SLOTS - Popcount(mask), 0, 0, n
  {
    if n > 0 {
      AddOpenBuff(mask, i);
      BuffBounded(w, mask, score, i, n - 1);
      var outcome := w.pmfs[i][n - 1];
      var next := Outcome(w, mask + Pow2(i), score + outcome.0);
      OutcomeBounded(w, mask + Pow2(i), score + outcome.0);
      OutcomeShare(outcome.1, next);
    }
  }

  /** One outcome of probability `p` adds at most `p` to the success total and nothing negative. */
  lemma OutcomeShare(probability: real, s: CostState)
    requires probability >= 0.0 && Bounded(s)
    ensures 0.0 <= Weighted(probability, s.successProbability.value) <= probability
    ensures Weighted(probability, s.tuner) >= 0.0 && Weighted(probability, s.exp) >= 0.0
  {
    var success := s.successProbability.value;
    ScaleBound(probability, success, 1.0);
    ScaleBound(probability, 0.0, success);
    assert probability * 0.0 == 0.0 && probability * 1.0 == probability;
    assert Weighted(probability, success) == probability * success;
    assert 0.0 <= probability * success <= probability;
    ScaleBound(probability, 0.0, s.tuner);
    ScaleBound(probability, 0.0, s.exp);
  }

  /** Writing the root's outcome into the root entry keeps the memo sound. */
  lemma RootWriteSound(w: Walk, memo: seq<MemoEntry>, root: CostState)
    requires WalkShaped(w) && MemoSound(w, memo)
    ensures MemoSound(w, memo[0 := Reachable(0, [root])])
  {
    var written := memo[0 := Reachable(0, [root])];
    forall mask | IsValidExternalPartialMask(mask) && mask != 0 && Rank(Partial, mask) < |written|
      ensures StatesSound(w, mask, written[Rank(Partial, mask)])
    {
      NonzeroRank(mask);
    }
  }

  /** The memo after the walk: sound, with the root's outcome as the root entry's only state. */
  ghost predicate Walked(w: Walk, memo: seq<MemoEntry>)
    requires WalkShaped(w)
  {
    MemoSound(w, memo) && memo[0] == Reachable(0, [Step(w, 0, 0)])
  }

  /**
   * The root of `calculate_expected_resources`: expand the empty echo,
   * finish with the first reveal's costs and store the result as the root
   * entry's only state.
   */
  method WalkFromRoot(w: Walk, memo: array<MemoEntry>) returns (root: CostState)
    requires WalkShaped(w) && MemoSound(w, memo[..])
    modifies memo
    ensures MemoSound(w, memo[..]) && root == Step(w, 0, 0) && memo[0] == Reachable(0, [root])
  {
    ZeroHasNoBits(0);
    var total := ExpandOutcomes(w, memo, 0, 0);
    root := Finish(w, 0, total);
    StoreRoot(w, memo, root);
  }

  /** `memo[0].states[0] = total`: the root entry holds exactly one state. */
  method StoreRoot(w: Walk, memo: array<MemoEntry>, root: CostState)
    requires WalkShaped(w) && MemoSound(w, memo[..])
    modifies memo
    ensures MemoSound(w, memo[..]) && memo[0] == Reachable(0, [root])
  {
    ghost var walked := memo[..];
    RootWriteSound(w, walked, root);
    var entry := memo[0];
    assert entry == walked[0] && entry.cutOff == 0 && |entry.states| == 1;
    assert entry.states[0 := root] == [root];
    memo[0] := Reachable(entry.cutOff, entry.states[0 := root]);
    assert memo[..] == walked[0 := Reachable(0, [root])];
  }
}
