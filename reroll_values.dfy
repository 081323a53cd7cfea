/**
 * What the reroll solver computes, as functions of its tables
 * (rust/src/reroll_policy.rs, `action_value`, `derive_policy`,
 * `build_lock_success_probability_cache`, `build_action_cache`): the
 * expected cost of rerolling a state under a lock, the Bellman step that
 * takes the cheapest lock of every state that misses the target, the
 * largest change of a step, the iterates from the initial estimate, and
 * the lock choices of a state, cheapest first.
 */
module RerollValues {
  import opened Base
  import opened Bits
  import opened Mask
  import opened RerollTables

  /** One way to reroll a state: the lock, its expected cost, its regret against the best lock, and how likely one reroll succeeds. */
  datatype LockChoice = LockChoice(lockMask: nat, expectedCost: real, regret: real, successProbability: real)

  /** The tables a derivation works on: the lock sets of every full mask, the transitions of every lock, and which full masks meet the target. */
  datatype RerollGame = RerollGame(lockSets: seq<seq<nat>>, transitions: seq<seq<nat>>, success: seq<bool>)

  /** A lock `action_value` can price: within the table, payable, with somewhere to go. */
  predicate Priced(g: RerollGame, lock: nat)
  {
    lock < |g.transitions| && Popcount(lock) <= MAX_LOCK_SIZE && g.transitions[lock] != []
  }

  /** What the tables of `new` guarantee: every lock of a state is priced and leads back to that state among others. */
  ghost predicate WellFormed(g: RerollGame)
  {
    && |g.lockSets| == NUM_FULL_MASKS && |g.success| == NUM_FULL_MASKS && |g.transitions| == LOCK_TABLE_SIZE
    && (forall i :: 0 <= i < NUM_FULL_MASKS ==> g.lockSets[i] != [])
    && (forall i :: 0 <= i < NUM_FULL_MASKS ==> LocksLeadBack(g, i))
    && (forall lock, j :: 0 <= lock < LOCK_TABLE_SIZE && 0 <= j < |g.transitions[lock]| ==>
          g.transitions[lock][j] < NUM_FULL_MASKS)
  }

  /** The locks of state `i` are payable and list `i` among their transitions. */
  ghost predicate LocksLeadBack(g: RerollGame, i: nat)
    requires i < |g.lockSets|
  {
    forall lock :: lock in g.lockSets[i] ==>
      lock < |g.transitions| && Popcount(lock) <= MAX_LOCK_SIZE && i in g.transitions[lock]
  }

  /** Every entry of `s` indexes a table of `bound` entries. */
  predicate Within(s: seq<nat>, bound: nat)
  {
    forall j :: 0 <= j < |s| ==> s[j] < bound
  }

  /** The locks of state `i` are priced. */
  lemma LocksPriced(g: RerollGame, dp: seq<real>, i: nat)
    requires WellFormed(g) && |dp| == NUM_FULL_MASKS && i < NUM_FULL_MASKS
    ensures forall lock :: lock in g.lockSets[i] ==> Priced(g, lock)
    ensures AllPriced(g, dp, g.lockSets[i])
  {
    assert LocksLeadBack(g, i);
    forall lock | lock in g.lockSets[i] ensures Priced(g, lock) {
      assert i in g.transitions[lock];
    }
  }

  // ---------------------------------------------------------------------
  // Action values

  /** `total / count as f64`. */
  function Ratio(total: real, count: nat): real
    requires count > 0
  {
    total / (count as real)
  }

  lemma RatioBounds(total: real, count: nat, lo: real, hi: real)
    requires count > 0 && (count as real) * lo <= total <= (count as real) * hi
    ensures lo <= Ratio(total, count) <= hi
  {
  }

  lemma RatioMonotone(a: real, b: real, count: nat)
    requires count > 0 && a <= b
    ensures Ratio(a, count) <= Ratio(b, count)
  {
  }

  /** The sum over `candidates` of `min(baseline, dp[candidate])`: keeping the baseline when the reroll lands worse. */
  function SumMin(dp: seq<real>, candidates: seq<nat>, baseline: real): real
    requires Within(candidates, |dp|)
  {
    if candidates == [] then 0.0
    else
      var last := candidates[|candidates| - 1];
      SumMin(dp, candidates[..|candidates| - 1], baseline) + Min(baseline, dp[last])
  }

  /** `action_value(baseline, lock)`: the lock's price plus the mean over its transitions of the kept value. */
  function ActionValue(g: RerollGame, dp: seq<real>, baseline: real, lock: nat): real
    requires Priced(g, lock) && Within(g.transitions[lock], |dp|)
  {
    LockCost(Popcount(lock)).val + Ratio(SumMin(dp, g.transitions[lock], baseline), |g.transitions[lock]|)
  }

  /** No value in `dp` is negative. */
  predicate NonNegative(dp: seq<real>)
  {
    forall k :: 0 <= k < |dp| ==> dp[k] >= 0.0
  }

  lemma {:induction false} SumMinBounds(dp: seq<real>, candidates: seq<nat>, baseline: real)
    requires Within(candidates, |dp|) && NonNegative(dp)
    requires baseline >= 0.0
    ensures 0.0 <= SumMin(dp, candidates, baseline) <= (|candidates| as real) * baseline
  {
    if candidates != [] {
      var n := |candidates| - 1;
      SumMinBounds(dp, candidates[..n], baseline);
      assert (|candidates| as real) * baseline == (n as real) * baseline + baseline;
    }
  }

  /** A lock costs its price and at most the baseline more: rerolling never loses what is already held. */
  lemma ActionValueBounds(g: RerollGame, dp: seq<real>, baseline: real, lock: nat)
    requires Priced(g, lock) && Within(g.transitions[lock], |dp|) && NonNegative(dp)
    requires baseline >= 0.0
    ensures LockCost(Popcount(lock)).val <= ActionValue(g, dp, baseline, lock) <= LockCost(Popcount(lock)).val + baseline
  {
    var candidates := g.transitions[lock];
    SumMinBounds(dp, candidates, baseline);
    RatioBounds(SumMin(dp, candidates, baseline), |candidates|, 0.0, baseline);
  }

  lemma {:induction false} SumMinMonotone(dp: seq<real>, dp': seq<real>, candidates: seq<nat>, b: real, b': real)
    requires |dp| == |dp'| && b <= b' && Below(dp, dp')
    requires Within(candidates, |dp|)
    ensures SumMin(dp, candidates, b) <= SumMin(dp', candidates, b')
  {
    if candidates != [] {
      SumMinMonotone(dp, dp', candidates[..|candidates| - 1], b, b');
    }
  }

  /** `dp` is nowhere above `dp'`. */
  predicate Below(dp: seq<real>, dp': seq<real>)
    requires |dp| == |dp'|
  {
    forall k :: 0 <= k < |dp| ==> dp[k] <= dp'[k]
  }

  /** Higher values everywhere make every lock dearer. */
  lemma ActionValueMonotone(g: RerollGame, dp: seq<real>, dp': seq<real>, b: real, b': real, lock: nat)
    requires |dp| == |dp'| && b <= b' && Below(dp, dp')
    requires Priced(g, lock) && Within(g.transitions[lock], |dp|)
    ensures ActionValue(g, dp, b, lock) <= ActionValue(g, dp', b', lock)
  {
    var candidates := g.transitions[lock];
    SumMinMonotone(dp, dp', candidates, b, b');
    RatioMonotone(SumMin(dp, candidates, b), SumMin(dp', candidates, b'), |candidates|);
  }

  // ---------------------------------------------------------------------
  // The Bellman step

  /** Every lock in `locks` is priced against `dp`. */
  predicate AllPriced(g: RerollGame, dp: seq<real>, locks: seq<nat>)
  {
    forall lock :: lock in locks ==> Priced(g, lock) && Within(g.transitions[lock], |dp|)
  }

  /** The inner loop of `derive_policy`: `best` starts at infinity and takes every strictly smaller action value. */
  function BestOver(g: RerollGame, dp: seq<real>, baseline: real, locks: seq<nat>): (r: F64)
    requires AllPriced(g, dp, locks)
    ensures locks != [] ==> r.Finite?
    ensures locks == [] ==> r == PosInf
  {
    if locks == [] then PosInf
    else
      var best := BestOver(g, dp, baseline, locks[..|locks| - 1]);
      var v := ActionValue(g, dp, baseline, locks[|locks| - 1]);
      if best.Greater(v) then Finite(v) else best
  }

  /** The best value is the least action value over the locks, and some lock attains it. */
  lemma {:induction false} BestOverIsMinimum(g: RerollGame, dp: seq<real>, baseline: real, locks: seq<nat>)
    requires AllPriced(g, dp, locks) && locks != []
    ensures forall j :: 0 <= j < |locks| ==> BestOver(g, dp, baseline, locks).val <= ActionValue(g, dp, baseline, locks[j])
    ensures exists j :: 0 <= j < |locks| && BestOver(g, dp, baseline, locks).val == ActionValue(g, dp, baseline, locks[j])
  {
    var n := |locks| - 1;
    var init := locks[..n];
    assert forall j :: 0 <= j < n ==> locks[j] == init[j];
    if n > 0 {
      BestOverIsMinimum(g, dp, baseline, init);
      var j :| 0 <= j < n && BestOver(g, dp, baseline, init).val == ActionValue(g, dp, baseline, init[j]);
      assert locks[j] == init[j];
    }
  }

  /** Lower values everywhere give a lower best. */
  lemma {:induction false} BestOverMonotone(g: RerollGame, dp: seq<real>, dp': seq<real>, b: real, b': real, locks: seq<nat>)
    requires |dp| == |dp'| && b <= b' && Below(dp, dp')
    requires AllPriced(g, dp, locks) && locks != []
    ensures BestOver(g, dp, b, locks).val <= BestOver(g, dp', b', locks).val
  {
    assert AllPriced(g, dp', locks);
    BestOverIsMinimum(g, dp', b', locks);
    var j :| 0 <= j < |locks| && BestOver(g, dp', b', locks).val == ActionValue(g, dp', b', locks[j]);
    BestOverIsMinimum(g, dp, b, locks);
    ActionValueMonotone(g, dp, dp', b, b', locks[j]);
  }

  /** What state `i` is worth after one step: 0 stays put on success, otherwise the best lock's value. */
  function Bellman(g: RerollGame, dp: seq<real>, i: nat): real
    requires WellFormed(g) && |dp| == NUM_FULL_MASKS && i < NUM_FULL_MASKS
  {
    if g.success[i] then dp[i]
    else
      LocksPriced(g, dp, i);
      BestOver(g, dp, dp[i], g.lockSets[i]).val
  }

  /** One pass of the iteration loop: `next` after every state has been updated. */
  function Next(g: RerollGame, dp: seq<real>): (r: seq<real>)
    requires WellFormed(g) && |dp| == NUM_FULL_MASKS
    ensures |r| == NUM_FULL_MASKS
  {
    seq(NUM_FULL_MASKS, i requires 0 <= i < NUM_FULL_MASKS => Bellman(g, dp, i))
  }

  function Abs(x: real): real { if x < 0.0 then -x else x }

  /** What state `i` contributes to `max_delta`: 0 on success, otherwise how far its value moved. */
  function Delta(g: RerollGame, dp: seq<real>, i: nat): real
    requires WellFormed(g) && |dp| == NUM_FULL_MASKS && i < NUM_FULL_MASKS
  {
    if g.success[i] then 0.0 else Abs(Bellman(g, dp, i) - dp[i])
  }

  /** `reduce(|| 0.0, f64::max)` over the first `n` deltas. */
  function MaxDelta(g: RerollGame, dp: seq<real>, n: nat): real
    requires WellFormed(g) && |dp| == NUM_FULL_MASKS && n <= NUM_FULL_MASKS
  {
    if n == 0 then 0.0
    else
      var m := MaxDelta(g, dp, n - 1);
      var d := Delta(g, dp, n - 1);
      if m < d then d else m
  }

  lemma {:induction false} MaxDeltaBounds(g: RerollGame, dp: seq<real>, n: nat, tol: real)
    requires WellFormed(g) && |dp| == NUM_FULL_MASKS && n <= NUM_FULL_MASKS && tol >= 0.0
    ensures MaxDelta(g, dp, n) <= tol <==> forall i :: 0 <= i < n ==> Delta(g, dp, i) <= tol
  {
    if n > 0 {
      MaxDeltaBounds(g, dp, n - 1, tol);
    }
  }

  /**
   * The stopping test `max_delta <= tol` holds exactly when one more step
   * moves no state's value by more than `tol`.
   */
  lemma Converged(g: RerollGame, dp: seq<real>, tol: real)
    requires WellFormed(g) && |dp| == NUM_FULL_MASKS && tol >= 0.0
    ensures MaxDelta(g, dp, NUM_FULL_MASKS) <= tol <==>
      forall i :: 0 <= i < NUM_FULL_MASKS ==> Abs(Next(g, dp)[i] - dp[i]) <= tol
  {
    MaxDeltaBounds(g, dp, NUM_FULL_MASKS, tol);
    forall i | 0 <= i < NUM_FULL_MASKS
      ensures Delta(g, dp, i) == Abs(Next(g, dp)[i] - dp[i])
    {
    }
  }

  /** Values fit for the solver: none negative, and 0 wherever the target is met. */
  predicate Grounded(g: RerollGame, dp: seq<real>)
    requires |g.success| == NUM_FULL_MASKS && |dp| == NUM_FULL_MASKS
  {
    NonNegative(dp) && forall i :: 0 <= i < NUM_FULL_MASKS && g.success[i] ==> dp[i] == 0.0
  }

  /**
   * A step keeps the values grounded and prices every state that misses the
   * target at one reroll or more.
   */
  lemma NextGrounded(g: RerollGame, dp: seq<real>)
    requires WellFormed(g) && |dp| == NUM_FULL_MASKS && Grounded(g, dp)
    ensures Grounded(g, Next(g, dp))
    ensures forall i :: 0 <= i < NUM_FULL_MASKS && !g.success[i] ==> Next(g, dp)[i] >= 1.0
  {
    forall i | 0 <= i < NUM_FULL_MASKS && !g.success[i]
      ensures Next(g, dp)[i] >= 1.0
    {
      var locks := g.lockSets[i];
      LocksPriced(g, dp, i);
      BestOverIsMinimum(g, dp, dp[i], locks);
      var j :| 0 <= j < |locks| && BestOver(g, dp, dp[i], locks).val == ActionValue(g, dp, dp[i], locks[j]);
      ActionValueBounds(g, dp, dp[i], locks[j]);
      LockCostShape(0, Popcount(locks[j]));
    }
  }

  /** The Bellman step is monotone: it never reverses the order of two value tables. */
  lemma NextMonotone(g: RerollGame, dp: seq<real>, dp': seq<real>)
    requires WellFormed(g) && |dp| == NUM_FULL_MASKS && |dp'| == NUM_FULL_MASKS
    requires Below(dp, dp')
    ensures Below(Next(g, dp), Next(g, dp'))
  {
    forall i | 0 <= i < NUM_FULL_MASKS && !g.success[i]
      ensures Next(g, dp)[i] <= Next(g, dp')[i]
    {
      LocksPriced(g, dp, i);
      BestOverMonotone(g, dp, dp', dp[i], dp'[i], g.lockSets[i]);
    }
  }

  // ---------------------------------------------------------------------
  // Value iteration

  /** `lock_cost(0) / p_success_all`: one unlocked reroll over the chance that a random full mask succeeds. */
  function InitValue(successCount: nat): real
    requires successCount > 0
  {
    LockCost(0).val / ((successCount as real) / (NUM_FULL_MASKS as real))
  }

  lemma InitValuePositive(successCount: nat)
    requires successCount > 0
    ensures InitValue(successCount) > 0.0
  {
  }

  /** The values `derive_policy` starts from. */
  function Initial(g: RerollGame, successCount: nat): (r: seq<real>)
    requires |g.success| == NUM_FULL_MASKS && successCount > 0
    ensures |r| == NUM_FULL_MASKS
  {
    seq(NUM_FULL_MASKS, i requires 0 <= i < NUM_FULL_MASKS => if g.success[i] then 0.0 else InitValue(successCount))
  }

  /** The values after `n` passes of the iteration loop. */
  function Iterate(g: RerollGame, dp0: seq<real>, n: nat): (r: seq<real>)
    requires WellFormed(g) && |dp0| == NUM_FULL_MASKS
    ensures |r| == NUM_FULL_MASKS
  {
    if n == 0 then dp0 else Next(g, Iterate(g, dp0, n - 1))
  }

  /** The iterates stay grounded: success states keep value 0 and no state ever goes negative. */
  lemma {:induction false} IterateGrounded(g: RerollGame, successCount: nat, n: nat)
    requires WellFormed(g) && successCount > 0
    ensures Grounded(g, Iterate(g, Initial(g, successCount), n))
  {
    if n == 0 {
      InitValuePositive(successCount);
    } else {
      IterateGrounded(g, successCount, n - 1);
      NextGrounded(g, Iterate(g, Initial(g, successCount), n - 1));
    }
  }

  /** The pass at which the loop stops when it converges within `maxIter` passes. */
  ghost predicate StopsAfter(g: RerollGame, dp0: seq<real>, tol: real, n: nat)
    requires WellFormed(g) && |dp0| == NUM_FULL_MASKS
  {
    n >= 1 && MaxDelta(g, Iterate(g, dp0, n - 1), NUM_FULL_MASKS) <= tol &&
    forall j :: 0 <= j < n - 1 ==> MaxDelta(g, Iterate(g, dp0, j), NUM_FULL_MASKS) > tol
  }

  // ---------------------------------------------------------------------
  // The lock success probabilities

  /** How many of `candidates` meet the target. */
  function SuccessCount(success: seq<bool>, candidates: seq<nat>): (r: nat)
    requires Within(candidates, |success|)
    ensures r <= |candidates|
  {
    if candidates == [] then 0
    else
      var last := candidates[|candidates| - 1];
      SuccessCount(success, candidates[..|candidates| - 1]) + (if success[last] then 1 else 0)
  }

  lemma {:induction false} SuccessCountExtremes(success: seq<bool>, candidates: seq<nat>)
    requires Within(candidates, |success|)
    ensures SuccessCount(success, candidates) == |candidates| <==> forall j :: 0 <= j < |candidates| ==> success[candidates[j]]
    ensures SuccessCount(success, candidates) == 0 <==> forall j :: 0 <= j < |candidates| ==> !success[candidates[j]]
  {
    if candidates != [] {
      var n := |candidates| - 1;
      SuccessCountExtremes(success, candidates[..n]);
      assert forall j :: 0 <= j < n ==> candidates[..n][j] == candidates[j];
    }
  }

  /** The chance that one reroll under `lock` lands on a full mask meeting the target; 0 for a lock without transitions. */
  function LockSuccessProbability(g: RerollGame, lock: nat): real
    requires WellFormed(g) && lock < LOCK_TABLE_SIZE
  {
    var candidates := g.transitions[lock];
    if candidates == [] then 0.0
    else Ratio(SuccessCount(g.success, candidates) as real, |candidates|)
  }

  /** A probability, 1 exactly when every transition succeeds and 0 exactly when none does. */
  lemma LockSuccessProbabilityBounds(g: RerollGame, lock: nat)
    requires WellFormed(g) && lock < LOCK_TABLE_SIZE && g.transitions[lock] != []
    ensures 0.0 <= LockSuccessProbability(g, lock) <= 1.0
    ensures LockSuccessProbability(g, lock) == 1.0 <==>
      forall j :: 0 <= j < |g.transitions[lock]| ==> g.success[g.transitions[lock][j]]
    ensures LockSuccessProbability(g, lock) == 0.0 <==>
      forall j :: 0 <= j < |g.transitions[lock]| ==> !g.success[g.transitions[lock][j]]
  {
    var candidates := g.transitions[lock];
    var c := SuccessCount(g.success, candidates);
    SuccessCountExtremes(g.success, candidates);
    RatioBounds(c as real, |candidates|, 0.0, 1.0);
    RatioExact(c, |candidates|);
  }

  lemma RatioExact(c: nat, n: nat)
    requires 0 < n && c <= n
    ensures Ratio(c as real, n) == 1.0 <==> c == n
    ensures Ratio(c as real, n) == 0.0 <==> c == 0
  {
  }

  /** `lock_success_probability_cache`. */
  function LockProbabilities(g: RerollGame): (r: seq<real>)
    requires WellFormed(g)
    ensures |r| == LOCK_TABLE_SIZE
  {
    seq(LOCK_TABLE_SIZE, lock requires 0 <= lock < LOCK_TABLE_SIZE => LockSuccessProbability(g, lock))
  }

  // ---------------------------------------------------------------------
  // The action cache

  /** The choices of state `i` before sorting: one per lock, in lock-set order, regret 0. */
  function RawChoices(g: RerollGame, dp: seq<real>, i: nat): (r: seq<LockChoice>)
    requires WellFormed(g) && |dp| == NUM_FULL_MASKS && i < NUM_FULL_MASKS
    ensures |r| == |g.lockSets[i]|
  {
    var locks := g.lockSets[i];
    LocksPriced(g, dp, i);
    seq(|locks|, j requires 0 <= j < |locks| =>
      LockChoice(locks[j], ActionValue(g, dp, dp[i], locks[j]), 0.0, LockSuccessProbability(g, locks[j])))
  }

  predicate CostSorted(s: seq<LockChoice>)
  {
    forall i, j :: 0 <= i < j < |s| ==> s[i].expectedCost <= s[j].expectedCost
  }

  /** Insert `c` before the first choice that costs at least as much, in front of its equals. */
  function InsertByCost(c: LockChoice, s: seq<LockChoice>): (r: seq<LockChoice>)
    ensures |r| == |s| + 1
  {
    if s == [] || c.expectedCost <= s[0].expectedCost then [c] + s
    else [s[0]] + InsertByCost(c, s[1..])
  }

  /** `sort_by(total_cmp)` on the expected cost: stable, ascending. */
  function SortByCost(s: seq<LockChoice>): (r: seq<LockChoice>)
    ensures |r| == |s|
  {
    if s == [] then [] else InsertByCost(s[0], SortByCost(s[1..]))
  }

  /** Every choice in `s` costs at least `x`. */
  predicate CostsAtLeast(s: seq<LockChoice>, x: real)
  {
    forall j :: 0 <= j < |s| ==> s[j].expectedCost >= x
  }

  lemma {:induction false} InsertByCostPermutes(c: LockChoice, s: seq<LockChoice>)
    ensures multiset(InsertByCost(c, s)) == multiset(s) + multiset{c}
  {
    if s != [] && c.expectedCost > s[0].expectedCost {
      InsertByCostPermutes(c, s[1..]);
      assert s == [s[0]] + s[1..];
    }
  }

  lemma {:induction false} InsertByCostBound(c: LockChoice, s: seq<LockChoice>, x: real)
    requires CostsAtLeast(s, x) && c.expectedCost >= x
    ensures CostsAtLeast(InsertByCost(c, s), x)
  {
    if s != [] && c.expectedCost > s[0].expectedCost {
      InsertByCostBound(c, s[1..], x);
    }
  }

  lemma SortedCons(a: LockChoice, t: seq<LockChoice>)
    ensures CostSorted([a] + t) <==> CostSorted(t) && CostsAtLeast(t, a.expectedCost)
  {
    var s := [a] + t;
    if CostSorted(t) && CostsAtLeast(t, a.expectedCost) {
      forall i, j | 0 <= i < j < |s| ensures s[i].expectedCost <= s[j].expectedCost {
        if i > 0 {
          assert s[i] == t[i - 1] && s[j] == t[j - 1];
        }
      }
    }
    if CostSorted(s) {
      forall i, j | 0 <= i < j < |t| ensures t[i].expectedCost <= t[j].expectedCost {
        assert s[i + 1] == t[i] && s[j + 1] == t[j];
      }
      forall j | 0 <= j < |t| ensures t[j].expectedCost >= a.expectedCost {
        assert s[0] == a && s[j + 1] == t[j];
      }
    }
  }

  lemma {:induction false} InsertByCostSorted(c: LockChoice, s: seq<LockChoice>)
    requires CostSorted(s)
    ensures CostSorted(InsertByCost(c, s))
  {
    if s == [] || c.expectedCost <= s[0].expectedCost {
      if s != [] {
        SortedCons(s[0], s[1..]);
        assert s == [s[0]] + s[1..];
        forall j | 0 <= j < |s| ensures s[j].expectedCost >= c.expectedCost {
          if j > 0 { assert s[j] == s[1..][j - 1]; }
        }
      }
      SortedCons(c, s);
    } else {
      SortedCons(s[0], s[1..]);
      assert s == [s[0]] + s[1..];
      InsertByCostSorted(c, s[1..]);
      InsertByCostBound(c, s[1..], s[0].expectedCost);
      SortedCons(s[0], InsertByCost(c, s[1..]));
    }
  }

  /** Sorting orders the choices by cost and keeps each of them. */
  lemma {:induction false} SortByCostSorts(s: seq<LockChoice>)
    ensures CostSorted(SortByCost(s))
    ensures multiset(SortByCost(s)) == multiset(s)
  {
    if s != [] {
      SortByCostSorts(s[1..]);
      InsertByCostSorted(s[0], SortByCost(s[1..]));
      InsertByCostPermutes(s[0], SortByCost(s[1..]));
      assert s == [s[0]] + s[1..];
    }
  }

  /** The regret pass of `build_action_cache`: each cost less the first. */
  function WithRegrets(s: seq<LockChoice>): (r: seq<LockChoice>)
    ensures |r| == |s|
  {
    if s == [] then []
    else seq(|s|, j requires 0 <= j < |s| => s[j].(regret := s[j].expectedCost - s[0].expectedCost))
  }

  /** `action_cache[i]`: no choices for a success state, otherwise the ranked choices with their regrets. */
  function Choices(g: RerollGame, dp: seq<real>, i: nat): seq<LockChoice>
    requires WellFormed(g) && |dp| == NUM_FULL_MASKS && i < NUM_FULL_MASKS
  {
    if g.success[i] then [] else WithRegrets(SortByCost(RawChoices(g, dp, i)))
  }

  /** `best_lock_cache[i]`: the lock of the first choice. */
  function BestLock(choices: seq<LockChoice>): Option<nat>
  {
    if choices == [] then None else Some(choices[0].lockMask)
  }

  /** Each raw choice is one lock of the state, priced by its action value and success probability. */
  predicate FaithfulChoice(g: RerollGame, dp: seq<real>, i: nat, c: LockChoice)
    requires WellFormed(g) && |dp| == NUM_FULL_MASKS && i < NUM_FULL_MASKS
  {
    && c.lockMask in g.lockSets[i]
    && Priced(g, c.lockMask)
    && c.expectedCost == ActionValue(g, dp, dp[i], c.lockMask)
    && c.successProbability == LockSuccessProbability(g, c.lockMask)
  }

  lemma RankedFaithful(g: RerollGame, dp: seq<real>, i: nat)
    requires WellFormed(g) && |dp| == NUM_FULL_MASKS && i < NUM_FULL_MASKS
    ensures forall c :: c in multiset(RawChoices(g, dp, i)) ==> FaithfulChoice(g, dp, i, c)
  {
    var raw := RawChoices(g, dp, i);
    LocksPriced(g, dp, i);
    forall c | c in multiset(raw) ensures FaithfulChoice(g, dp, i, c) {
      var k :| 0 <= k < |raw| && raw[k] == c;
    }
  }

  lemma RankedComplete(g: RerollGame, dp: seq<real>, i: nat, sorted: seq<LockChoice>)
    requires WellFormed(g) && |dp| == NUM_FULL_MASKS && i < NUM_FULL_MASKS
    requires multiset(sorted) == multiset(RawChoices(g, dp, i))
    ensures forall lock :: lock in g.lockSets[i] ==> exists j :: 0 <= j < |sorted| && sorted[j].lockMask == lock
  {
    var raw := RawChoices(g, dp, i);
    var locks := g.lockSets[i];
    forall lock | lock in locks
      ensures exists j :: 0 <= j < |sorted| && sorted[j].lockMask == lock
    {
      var k :| 0 <= k < |locks| && locks[k] == lock;
      assert raw[k] in multiset(sorted);
      var j :| 0 <= j < |sorted| && sorted[j] == raw[k];
    }
  }

  lemma RankedFirst(g: RerollGame, dp: seq<real>, i: nat, sorted: seq<LockChoice>)
    requires WellFormed(g) && |dp| == NUM_FULL_MASKS && i < NUM_FULL_MASKS && !g.success[i]
    requires multiset(sorted) == multiset(RawChoices(g, dp, i)) && CostSorted(sorted)
    ensures |sorted| > 0 && sorted[0].expectedCost == Bellman(g, dp, i)
  {
    var raw := RawChoices(g, dp, i);
    var locks := g.lockSets[i];
    LocksPriced(g, dp, i);
    BestOverIsMinimum(g, dp, dp[i], locks);
    var k :| 0 <= k < |locks| && BestOver(g, dp, dp[i], locks).val == ActionValue(g, dp, dp[i], locks[k]);
    assert raw[k] in multiset(sorted);
    var j :| 0 <= j < |sorted| && sorted[j] == raw[k];
    assert sorted[0].expectedCost <= sorted[j].expectedCost;
    assert sorted[0] in multiset(raw);
    var h :| 0 <= h < |raw| && raw[h] == sorted[0];
  }

  /** Choices cheapest first, each with its excess over the first as regret. */
  predicate RegretOrdered(c: seq<LockChoice>)
  {
    && c != []
    && CostSorted(c)
    && (forall j :: 0 <= j < |c| ==> c[j].regret == c[j].expectedCost - c[0].expectedCost >= 0.0)
    && c[0].regret == 0.0
  }

  /** The choices of state `i` are exactly its locks, priced, and the first costs the Bellman value. */
  ghost predicate ChoicesOfState(g: RerollGame, dp: seq<real>, i: nat, c: seq<LockChoice>)
    requires WellFormed(g) && |dp| == NUM_FULL_MASKS && i < NUM_FULL_MASKS && !g.success[i]
  {
    && |c| == |g.lockSets[i]| > 0
    && (forall j :: 0 <= j < |c| ==> FaithfulChoice(g, dp, i, c[j].(regret := 0.0)))
    && (forall lock :: lock in g.lockSets[i] ==> exists j :: 0 <= j < |c| && c[j].lockMask == lock)
    && c[0].expectedCost == Bellman(g, dp, i)
  }

  /**
   * The choices of a state that misses the target list every lock of its
   * lock set with its action value and success probability, cheapest
   * first; the first costs the Bellman value, has regret 0, and every regret
   * is the excess over it.
   */
  lemma ChoicesRanked(g: RerollGame, dp: seq<real>, i: nat)
    requires WellFormed(g) && |dp| == NUM_FULL_MASKS && i < NUM_FULL_MASKS && !g.success[i]
    ensures RegretOrdered(Choices(g, dp, i))
    ensures ChoicesOfState(g, dp, i, Choices(g, dp, i))
  {
    var raw := RawChoices(g, dp, i);
    SortByCostSorts(raw);
    var sorted := SortByCost(raw);
    assert |sorted| == |raw| > 0;
    RegretsOrder(sorted, Choices(g, dp, i));
    RegretsContent(g, dp, i, sorted, Choices(g, dp, i));
  }

  lemma RegretsOrder(sorted: seq<LockChoice>, c: seq<LockChoice>)
    requires CostSorted(sorted) && sorted != [] && c == WithRegrets(sorted)
    ensures RegretOrdered(c)
  {
    assert forall j :: 0 <= j < |c| ==> c[j].expectedCost == sorted[j].expectedCost;
    assert forall j :: 0 <= j < |c| ==> sorted[0].expectedCost <= sorted[j].expectedCost;
  }

  lemma RegretsContent(g: RerollGame, dp: seq<real>, i: nat, sorted: seq<LockChoice>, c: seq<LockChoice>)
    requires WellFormed(g) && |dp| == NUM_FULL_MASKS && i < NUM_FULL_MASKS && !g.success[i]
    requires multiset(sorted) == multiset(RawChoices(g, dp, i)) && CostSorted(sorted)
    requires |sorted| == |g.lockSets[i]| && c == WithRegrets(sorted)
    ensures ChoicesOfState(g, dp, i, c)
  {
    var raw := RawChoices(g, dp, i);
    RankedFaithful(g, dp, i);
    RankedComplete(g, dp, i, sorted);
    RankedFirst(g, dp, i, sorted);
    forall j | 0 <= j < |c| ensures FaithfulChoice(g, dp, i, c[j].(regret := 0.0)) {
      assert c[j].(regret := 0.0) == sorted[j].(regret := 0.0);
      assert sorted[j] in multiset(raw);
    }
    forall lock | lock in g.lockSets[i] ensures exists j :: 0 <= j < |c| && c[j].lockMask == lock {
      var j :| 0 <= j < |sorted| && sorted[j].lockMask == lock;
      assert c[j].lockMask == lock;
    }
    assert c[0].expectedCost == sorted[0].expectedCost;
  }
}
