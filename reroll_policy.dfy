/**
 * The reroll solver of rust/src/reroll_policy.rs: a class over the static
 * tables of `new` and the mutable target, values and caches. `set_target`
 * marks the full masks that meet a target, `derive_policy` runs value
 * iteration until the largest change is within the tolerance and then fills
 * the caches, and the queries read them.
 */
module RerollPolicy {
  import opened Base
  import opened Bits
  import opened Data
  import opened Mask
  import opened Scoring
  import opened RerollTables
  import opened RerollValues

  /** `RerollPolicySolverError`. */
  datatype RerollError =
    | PolicyNotDerived
    | FailedToConvergeWithinMaxIter
    | InvalidWeights
    | InvalidMask(mask: nat)
    | InvalidTolerance(tolerance: F64)
    | TargetScoreImpossible(targetScore: F64, maxScore: real)
    | TargetNotSet

  /** How many of the first `n` scores reach the target `t` (`score >= target_score`). */
  function MeetCount(t: F64, scores: seq<real>, n: nat): (r: nat)
    requires n <= |scores|
    ensures r <= n
  {
    if n == 0 then 0 else MeetCount(t, scores, n - 1) + (if t.AtMost(scores[n - 1]) then 1 else 0)
  }

  lemma {:induction false} MeetCountPositive(t: F64, scores: seq<real>, n: nat, k: nat)
    requires k < n <= |scores| && t.AtMost(scores[k])
    ensures MeetCount(t, scores, n) > 0
  {
    if k < n - 1 {
      MeetCountPositive(t, scores, n - 1, k);
    }
  }

  /** A target that `set_target` accepts is met by some full mask, so `p_success_all` is never 0. */
  lemma ReachableTarget(scores: seq<real>, t: F64)
    requires |scores| == NUM_FULL_MASKS && forall k :: 0 <= k < NUM_FULL_MASKS ==> scores[k] >= 0.0
    requires !t.NaN? && !t.Greater(MaxScore(scores, NUM_FULL_MASKS))
    ensures MeetCount(t, scores, NUM_FULL_MASKS) > 0
  {
    MaxScoreBounds(scores, NUM_FULL_MASKS);
    var k :| 0 <= k < NUM_FULL_MASKS && scores[k] == MaxScore(scores, NUM_FULL_MASKS);
    MeetCountPositive(t, scores, NUM_FULL_MASKS, k);
  }

  /** The tables `new` builds form a game: every lock set is non-empty, its locks lead back, and transitions stay in range. */
  lemma TablesWellFormed(s: Scorer, positive: nat, masks: seq<nat>, scores: seq<real>, maxScore: real,
                         lockSets: seq<seq<nat>>, transitions: seq<seq<nat>>, success: seq<bool>)
    requires ValidScorer(s) && positive <= U16_MAX && FullTable(masks) && |success| == NUM_FULL_MASKS
    requires TablesOf(s, positive, masks, scores, maxScore, lockSets, transitions)
    ensures WellFormed(RerollGame(lockSets, transitions, success))
  {
    var g := RerollGame(lockSets, transitions, success);
    forall i | 0 <= i < NUM_FULL_MASKS
      ensures lockSets[i] != [] && LocksLeadBack(g, i)
    {
      LockSetMembers(positive, masks[i]);
      forall lock | lock in lockSets[i]
        ensures lock < |transitions| && Popcount(lock) <= MAX_LOCK_SIZE && i in transitions[lock]
      {
        TransitionsMembers(positive, masks, NUM_FULL_MASKS, lock);
      }
    }
    forall lock, j | 0 <= lock < LOCK_TABLE_SIZE && 0 <= j < |transitions[lock]|
      ensures transitions[lock][j] < NUM_FULL_MASKS
    {
      TransitionsMembers(positive, masks, NUM_FULL_MASKS, lock);
      assert transitions[lock][j] in TransitionsBelow(positive, masks, NUM_FULL_MASKS, lock);
    }
  }

  /** Values after at least one pass: grounded, and at least one reroll wherever the target is missed. */
  predicate Settled(g: RerollGame, dp: seq<real>)
    requires |g.success| == NUM_FULL_MASKS && |dp| == NUM_FULL_MASKS
  {
    Grounded(g, dp) && forall i :: 0 <= i < NUM_FULL_MASKS && !g.success[i] ==> dp[i] >= 1.0
  }

  /** The iterates after one pass or more are settled. */
  lemma IterateSettled(g: RerollGame, successCount: nat, n: nat)
    requires WellFormed(g) && successCount > 0 && n >= 1
    ensures Settled(g, Iterate(g, Initial(g, successCount), n))
  {
    IterateGrounded(g, successCount, n - 1);
    NextGrounded(g, Iterate(g, Initial(g, successCount), n - 1));
  }

  /** The loop stops at the first pass whose largest change is within the tolerance. */
  lemma StopsHere(g: RerollGame, dp0: seq<real>, tol: real, iter: nat)
    requires WellFormed(g) && |dp0| == NUM_FULL_MASKS
    requires forall j :: 0 <= j < iter ==> MaxDelta(g, Iterate(g, dp0, j), NUM_FULL_MASKS) > tol
    requires MaxDelta(g, Iterate(g, dp0, iter), NUM_FULL_MASKS) <= tol
    ensures StopsAfter(g, dp0, tol, iter + 1)
  {
  }

  /** A loop none of whose `maxIter` passes gets within the tolerance does not stop. */
  lemma NeverStops(g: RerollGame, dp0: seq<real>, tol: real, maxIter: nat)
    requires WellFormed(g) && |dp0| == NUM_FULL_MASKS
    requires forall j :: 0 <= j < maxIter ==> MaxDelta(g, Iterate(g, dp0, j), NUM_FULL_MASKS) > tol
    ensures !StopsAfter(g, dp0, tol, maxIter)
  {
    if maxIter > 0 {
      assert MaxDelta(g, Iterate(g, dp0, maxIter - 1), NUM_FULL_MASKS) > tol;
    }
  }

  /** `action_cache` as `build_action_cache` fills it. */
  function ActionCache(g: RerollGame, dp: seq<real>): (r: seq<seq<LockChoice>>)
    requires WellFormed(g) && |dp| == NUM_FULL_MASKS
    ensures |r| == NUM_FULL_MASKS
  {
    seq(NUM_FULL_MASKS, i requires 0 <= i < NUM_FULL_MASKS => Choices(g, dp, i))
  }

  /** `best_lock_cache`: the first lock of every state's choices. */
  function BestLocks(cache: seq<seq<LockChoice>>): (r: seq<Option<nat>>)
    ensures |r| == |cache|
  {
    seq(|cache|, i requires 0 <= i < |cache| => BestLock(cache[i]))
  }

  /** The checks of `derive_policy` on `tol`: NaN, infinite, or not positive. */
  predicate BadTolerance(tol: F64)
  {
    !tol.Finite? || tol.val <= 0.0
  }

  class RerollPolicySolver {
    /** The fixed scorer `new` builds from the weights, and the mask of weights above 0. */
    ghost const scorer: Scorer
    ghost const positiveMask: nat
    /** `FULL_MASKS`. */
    ghost const fullMasks: seq<nat>

    const scores: seq<real>
    const maxScore: real
    const lockSets: seq<seq<nat>>
    const transitions: seq<seq<nat>>

    var targetScore: Option<F64>
    var success: seq<bool>
    var successCount: nat
    var policyDerived: bool
    var dp: seq<real>
    var actionCache: seq<seq<LockChoice>>
    var bestLockCache: seq<Option<nat>>
    var lockSuccessProbabilityCache: seq<real>

    /** The tables are those `new` derives from the scorer. */
    ghost predicate Static()
    {
      && ValidScorer(scorer) && positiveMask <= U16_MAX && FullTable(fullMasks)
      && TablesOf(scorer, positiveMask, fullMasks, scores, maxScore, lockSets, transitions)
    }

    ghost function G(): RerollGame
      reads this`success
    {
      RerollGame(lockSets, transitions, success)
    }

    /** The game of the current marks is well formed and the values fit it. */
    ghost predicate Sized()
      reads this`success, this`dp
    {
      |success| == NUM_FULL_MASKS && |dp| == NUM_FULL_MASKS && WellFormed(G())
    }

    /** `success` marks the full masks scoring at least `t`, and `success_count` counts them. */
    ghost predicate Marks(t: F64)
      reads this`success, this`successCount
    {
      && |success| == NUM_FULL_MASKS && |scores| == NUM_FULL_MASKS
      && !t.NaN? && !t.Greater(maxScore)
      && (forall i :: 0 <= i < NUM_FULL_MASKS ==> (success[i] <==> t.AtMost(scores[i])))
      && successCount == MeetCount(t, scores, NUM_FULL_MASKS) && successCount > 0
    }

    /** The caches hold what `build_action_cache` computes from the current values. */
    ghost predicate Derived()
      reads this`success, this`dp, this`lockSuccessProbabilityCache, this`actionCache, this`bestLockCache
      requires Sized()
    {
      && lockSuccessProbabilityCache == LockProbabilities(G())
      && actionCache == ActionCache(G(), dp)
      && bestLockCache == BestLocks(actionCache)
    }

    /** The caches as `set_target` and `derive_policy` clear them. */
    ghost predicate Cleared()
      reads this`actionCache, this`bestLockCache, this`lockSuccessProbabilityCache
    {
      && actionCache == seq(NUM_FULL_MASKS, _ => [])
      && bestLockCache == seq(NUM_FULL_MASKS, _ => None)
      && lockSuccessProbabilityCache == seq(LOCK_TABLE_SIZE, _ => 0.0)
    }

    /** What holds between derivations: the tables, and the marks of the target when one is set. */
    ghost predicate Fixed()
      reads this`success, this`successCount, this`targetScore
    {
      && Static() && |success| == NUM_FULL_MASKS && WellFormed(G())
      && (targetScore.Some? ==> Marks(targetScore.value))
    }

    ghost predicate Valid()
      reads this
    {
      && Fixed() && |dp| == NUM_FULL_MASKS
      && |actionCache| == NUM_FULL_MASKS && |bestLockCache| == NUM_FULL_MASKS
      && |lockSuccessProbabilityCache| == LOCK_TABLE_SIZE
      && (policyDerived ==> targetScore.Some? && Settled(G(), dp) && Derived())
    }

    /** `new` once the weights have passed the fixed scorer's checks. */
    constructor (s: Scorer)
      requires ValidScorer(s) && s.FixedScorer?
      ensures Valid()
      ensures scorer == s && positiveMask == PositiveMask(s.weights, NUM_BUFFS) && fullMasks == Masks(Full)
      ensures targetScore == None && !policyDerived
      ensures success == seq(NUM_FULL_MASKS, _ => false) && successCount == 0
      ensures dp == seq(NUM_FULL_MASKS, _ => 0.0) && Cleared()
    {
      var masks, positive, sc, mx, ls, tr := Tables(s);
      scorer := s;
      positiveMask := positive;
      fullMasks := masks;
      scores := sc;
      maxScore := mx;
      lockSets := ls;
      transitions := tr;
      targetScore := None;
      success := seq(NUM_FULL_MASKS, _ => false);
      successCount := 0;
      policyDerived := false;
      dp := seq(NUM_FULL_MASKS, _ => 0.0);
      actionCache := seq(NUM_FULL_MASKS, _ => []);
      bestLockCache := seq(NUM_FULL_MASKS, _ => None);
      lockSuccessProbabilityCache := seq(LOCK_TABLE_SIZE, _ => 0.0);
    }

    /** The table building of `new`: the full masks, the positive-weight mask, the scores and the lock tables. */
    static method Tables(s: Scorer)
      returns (masks: seq<nat>, positive: nat, scores: seq<real>, maxScore: real,
               lockSets: seq<seq<nat>>, transitions: seq<seq<nat>>)
      requires ValidScorer(s) && s.FixedScorer?
      ensures masks == Masks(Full) && FullTable(masks)
      ensures positive == PositiveMask(s.weights, NUM_BUFFS) && positive <= U16_MAX
      ensures TablesOf(s, positive, masks, scores, maxScore, lockSets, transitions)
      ensures WellFormed(RerollGame(lockSets, transitions, seq(NUM_FULL_MASKS, _ => false)))
    {
      var maskArray := BuildMasks(Full);
      masks := maskArray[..];
      FullTableOfMasks(Full, masks);
      positive := PositiveWeightMask(s.weights);
      PositiveMaskBits(s.weights, NUM_BUFFS);
      assert Pow2(8) == 256;
      assert Pow2(13) == 8192;
      scores, maxScore, lockSets, transitions := BuildTables(s, positive, masks);
      TablesWellFormed(s, positive, masks, scores, maxScore, lockSets, transitions, seq(NUM_FULL_MASKS, _ => false));
    }

    /** A valid external full mask is in the table, at the index `full_mask_to_index` gives. */
    lemma IndexInTable(mask: nat)
      requires Static() && IsValidExternalFullMask(mask)
      ensures mask <= FULL_MASK_SPACE && MaskToIndex(Full, mask) < NUM_FULL_MASKS
      ensures fullMasks[MaskToIndex(Full, mask)] == mask
    {
    }

    /** The state of a valid external full mask. */
    ghost function StateOf(mask: nat): (r: nat)
      requires Static() && IsValidExternalFullMask(mask)
      ensures r < NUM_FULL_MASKS && fullMasks[r] == mask
    {
      IndexInTable(mask);
      MaskToIndex(Full, mask)
    }

    // -------------------------------------------------------------------
    // set_target

    /** The marking loop of `set_target`. */
    method MarkSuccesses(t: F64) returns (marks: seq<bool>, count: nat)
      requires |scores| == NUM_FULL_MASKS
      ensures |marks| == NUM_FULL_MASKS
      ensures forall i :: 0 <= i < NUM_FULL_MASKS ==> (marks[i] <==> t.AtMost(scores[i]))
      ensures count == MeetCount(t, scores, NUM_FULL_MASKS)
    {
      marks := seq(NUM_FULL_MASKS, _ => false);
      count := 0;
      for index := 0 to NUM_FULL_MASKS
        invariant |marks| == NUM_FULL_MASKS
        invariant forall i :: 0 <= i < index ==> (marks[i] <==> t.AtMost(scores[i]))
        invariant forall i :: index <= i < NUM_FULL_MASKS ==> !marks[i]
        invariant count == MeetCount(t, scores, index)
      {
        if t.AtMost(scores[index]) {
          marks := marks[index := true];
          count := count + 1;
        }
      }
    }

    /** What `set_target` and `derive_policy` reset before anything else. */
    method ClearCaches()
      modifies this`policyDerived, this`actionCache, this`bestLockCache, this`lockSuccessProbabilityCache
      ensures !policyDerived && Cleared()
    {
      policyDerived := false;
      bestLockCache := seq(NUM_FULL_MASKS, _ => None);
      actionCache := seq(NUM_FULL_MASKS, _ => []);
      lockSuccessProbabilityCache := seq(LOCK_TABLE_SIZE, _ => 0.0);
    }

    /**
     * `set_target`: a NaN target or one above every score is refused and
     * changes nothing; otherwise the target is recorded, the policy and
     * its caches are dropped and the full masks that meet it are marked.
     */
    method SetTarget(t: F64) returns (r: Result<(), RerollError>)
      requires Valid()
      modifies this
      ensures Valid()
      ensures t.NaN? || t.Greater(maxScore) ==> r == Err(TargetScoreImpossible(t, maxScore)) && unchanged(this)
      ensures !(t.NaN? || t.Greater(maxScore)) ==>
        && r == Ok(()) && targetScore == Some(t) && !policyDerived && Cleared() && dp == old(dp)
        && (forall i :: 0 <= i < NUM_FULL_MASKS ==> (success[i] <==> t.AtMost(scores[i])))
        && successCount == MeetCount(t, scores, NUM_FULL_MASKS) && successCount > 0
    {
      if t.NaN? || t.Greater(maxScore) {
        return Err(TargetScoreImpossible(t, maxScore));
      }
      targetScore := Some(t);
      ClearCaches();
      var marks, count := MarkSuccesses(t);
      success := marks;
      successCount := count;
      ReachableTarget(scores, t);
      TablesWellFormed(scorer, positiveMask, fullMasks, scores, maxScore, lockSets, transitions, success);
      r := Ok(());
    }

    // -------------------------------------------------------------------
    // derive_policy

    /** `action_value`: the lock's price plus the mean, over its transitions, of the cheaper of baseline and candidate. */
    method ActionValueAt(baseline: real, lock: nat) returns (v: real)
      requires Sized() && Priced(G(), lock)
      ensures v == ActionValue(G(), dp, baseline, lock)
    {
      var k := Popcount(lock);
      var candidates := transitions[lock];
      assert Within(candidates, |dp|);
      var total := 0.0;
      for j := 0 to |candidates|
        invariant total == SumMin(dp, candidates[..j], baseline)
      {
        var candidate := dp[candidates[j]];
        total := total + (if baseline < candidate then baseline else candidate);
        assert candidates[..j + 1][..j] == candidates[..j];
      }
      assert candidates[..|candidates|] == candidates;
      v := LockCost(k).val + total / (|candidates| as real);
    }

    /** The inner loop of a pass: the least action value over the locks of state `index`. */
    method BestActionAt(index: nat) returns (best: real)
      requires Sized() && index < NUM_FULL_MASKS
      ensures AllPriced(G(), dp, lockSets[index])
      ensures best == BestOver(G(), dp, dp[index], lockSets[index]).val
    {
      ghost var g := G();
      var locks := lockSets[index];
      LocksPriced(g, dp, index);
      var baseline := dp[index];
      var b := PosInf;
      for j := 0 to |locks|
        invariant AllPriced(g, dp, locks[..j])
        invariant b == BestOver(g, dp, baseline, locks[..j])
      {
        assert locks[..j + 1][..j] == locks[..j];
        assert locks[j] in locks;
        var v := ActionValueAt(baseline, locks[j]);
        if b.Greater(v) {
          b := Finite(v);
        }
      }
      assert locks[..|locks|] == locks;
      best := b.val;
    }

    /** One pass of the iteration loop: the Bellman step of every state and the largest change. */
    method BellmanPass() returns (next: seq<real>, maxDelta: real)
      requires Sized()
      ensures next == Next(G(), dp)
      ensures maxDelta == MaxDelta(G(), dp, NUM_FULL_MASKS)
    {
      ghost var g := G();
      next := dp;
      maxDelta := 0.0;
      for index := 0 to NUM_FULL_MASKS
        invariant |next| == NUM_FULL_MASKS
        invariant forall i :: 0 <= i < index ==> next[i] == Bellman(g, dp, i)
        invariant forall i :: index <= i < NUM_FULL_MASKS ==> next[i] == dp[i]
        invariant maxDelta == MaxDelta(g, dp, index)
      {
        var delta := 0.0;
        if !success[index] {
          var best := BestActionAt(index);
          next := next[index := best];
          delta := Abs(best - dp[index]);
        }
        maxDelta := if maxDelta < delta then delta else maxDelta;
      }
      assert next == Next(g, dp);
    }

    /** The start of `derive_policy`: 0 on success, `lock_cost(0) / p_success_all` elsewhere. */
    method InitialValues() returns (values: seq<real>)
      requires |success| == NUM_FULL_MASKS && |dp| == NUM_FULL_MASKS && successCount > 0
      ensures values == Initial(G(), successCount)
    {
      var pSuccessAll := (successCount as real) / (NUM_FULL_MASKS as real);
      var initValue := LockCost(0).val / pSuccessAll;
      values := dp;
      for index := 0 to NUM_FULL_MASKS
        invariant |values| == NUM_FULL_MASKS
        invariant forall i :: 0 <= i < index ==> values[i] == if success[i] then 0.0 else initValue
      {
        values := values[index := if success[index] then 0.0 else initValue];
      }
      assert initValue == InitValue(successCount);
    }

    /** One entry of `build_lock_success_probability_cache`: the share of the lock's transitions that meet the target. */
    method LockProbability(lock: nat) returns (p: real)
      requires Sized() && lock < LOCK_TABLE_SIZE
      ensures p == LockSuccessProbability(G(), lock)
    {
      var candidates := transitions[lock];
      if candidates == [] {
        return 0.0;
      }
      assert Within(candidates, |success|);
      var count := 0;
      for j := 0 to |candidates|
        invariant count == SuccessCount(success, candidates[..j])
      {
        assert candidates[..j + 1][..j] == candidates[..j];
        if success[candidates[j]] {
          count := count + 1;
        }
      }
      assert candidates[..|candidates|] == candidates;
      p := (count as real) / (|candidates| as real);
    }

    /** `build_lock_success_probability_cache`. */
    method BuildLockSuccessProbabilityCache()
      requires Sized()
      modifies this`lockSuccessProbabilityCache
      ensures lockSuccessProbabilityCache == LockProbabilities(G())
    {
      ghost var g := G();
      var cache := [];
      for lock := 0 to LOCK_TABLE_SIZE
        invariant |cache| == lock
        invariant forall l :: 0 <= l < lock ==> cache[l] == LockSuccessProbability(g, l)
      {
        var p := LockProbability(lock);
        cache := cache + [p];
      }
      lockSuccessProbabilityCache := cache;
    }

    /** The regret pass of `build_action_cache`. */
    method ApplyRegrets(sorted: seq<LockChoice>) returns (choices: seq<LockChoice>)
      requires sorted != []
      ensures choices == WithRegrets(sorted)
    {
      var best := sorted[0].expectedCost;
      choices := sorted;
      for j := 0 to |choices|
        invariant |choices| == |sorted|
        invariant forall k :: 0 <= k < j ==> choices[k] == sorted[k].(regret := sorted[k].expectedCost - best)
        invariant forall k :: j <= k < |sorted| ==> choices[k] == sorted[k]
      {
        choices := choices[j := choices[j].(regret := choices[j].expectedCost - best)];
      }
    }

    /** One state of `build_action_cache`: nothing on success, otherwise its locks priced, sorted by cost, with regrets. */
    method StateChoices(index: nat) returns (choices: seq<LockChoice>)
      requires Sized() && index < NUM_FULL_MASKS
      requires lockSuccessProbabilityCache == LockProbabilities(G())
      ensures choices == Choices(G(), dp, index)
    {
      ghost var g := G();
      if success[index] {
        return [];
      }
      var baseline := dp[index];
      var locks := lockSets[index];
      LocksPriced(g, dp, index);
      var raw := [];
      for j := 0 to |locks|
        invariant raw == RawChoices(g, dp, index)[..j]
      {
        assert locks[j] in locks;
        var v := ActionValueAt(baseline, locks[j]);
        raw := raw + [LockChoice(locks[j], v, 0.0, lockSuccessProbabilityCache[locks[j]])];
      }
      assert raw == RawChoices(g, dp, index);
      var sorted := SortByCost(raw);
      choices := ApplyRegrets(sorted);
    }

    /** The parallel map of `build_action_cache`: the choices of every state. */
    method AllStateChoices() returns (cache: seq<seq<LockChoice>>)
      requires Sized() && lockSuccessProbabilityCache == LockProbabilities(G())
      ensures cache == ActionCache(G(), dp)
    {
      ghost var g := G();
      cache := [];
      for index := 0 to NUM_FULL_MASKS
        invariant |cache| == index
        invariant forall i :: 0 <= i < index ==> cache[i] == Choices(g, dp, i)
      {
        var choices := StateChoices(index);
        cache := cache + [choices];
      }
    }

    /** The `best_lock_cache` loop of `build_action_cache`. */
    static method FirstLocks(cache: seq<seq<LockChoice>>) returns (best: seq<Option<nat>>)
      requires |cache| == NUM_FULL_MASKS
      ensures best == BestLocks(cache)
    {
      best := seq(NUM_FULL_MASKS, _ => None);
      for index := 0 to NUM_FULL_MASKS
        invariant |best| == NUM_FULL_MASKS
        invariant forall i :: 0 <= i < index ==> best[i] == BestLock(cache[i])
      {
        best := best[index := if cache[index] == [] then None else Some(cache[index][0].lockMask)];
      }
    }

    /** `build_action_cache`: the success probabilities, the ranked choices of every state, and each state's best lock. */
    method BuildActionCache()
      requires Sized()
      modifies this`lockSuccessProbabilityCache, this`actionCache, this`bestLockCache
      ensures Derived()
    {
      BuildLockSuccessProbabilityCache();
      var cache := AllStateChoices();
      var best := FirstLocks(cache);
      actionCache := cache;
      bestLockCache := best;
    }

    /**
     * `derive_policy`: without a target, or with a tolerance that is NaN,
     * infinite or not positive, it fails and changes nothing. Otherwise it
     * drops the policy, starts from the initial values and runs passes;
     * after pass `passes` the values are the `passes`-th iterate. It stops
     * with `Ok` at the first pass whose largest change is within `tol`,
     * having filled the caches from the final values; when no pass among
     * `maxIter` gets there it fails with the caches cleared.
     */
    method DerivePolicy(tol: F64, maxIter: nat) returns (r: Result<(), RerollError>, ghost passes: nat)
      requires Valid()
      modifies this
      ensures Valid()
      ensures targetScore == old(targetScore) && success == old(success) && successCount == old(successCount)
      ensures old(targetScore).None? ==> r == Err(TargetNotSet) && unchanged(this)
      ensures old(targetScore).Some? && BadTolerance(tol) ==> r == Err(InvalidTolerance(tol)) && unchanged(this)
      ensures old(targetScore).Some? && !BadTolerance(tol) ==>
        && passes <= maxIter
        && dp == Iterate(G(), Initial(G(), successCount), passes)
        && (r.Ok? <==> StopsAfter(G(), Initial(G(), successCount), tol.val, passes))
        && (r.Ok? <==> policyDerived)
        && (r.Err? ==> && r.error == FailedToConvergeWithinMaxIter && passes == maxIter && Cleared()
                       && forall j :: 0 <= j < maxIter ==>
                            MaxDelta(G(), Iterate(G(), Initial(G(), successCount), j), NUM_FULL_MASKS) > tol.val)
    {
      if targetScore.None? {
        return Err(TargetNotSet), 0;
      }
      if BadTolerance(tol) {
        return Err(InvalidTolerance(tol)), 0;
      }
      ClearCaches();
      dp := InitialValues();
      r, passes := Iterations(tol.val, maxIter, G(), Initial(G(), successCount));
    }

    /** One pass of the loop: step the values; when the largest change is within `tol`, fill the caches and stop. */
    method Pass(tol: real, ghost g: RerollGame, ghost dp0: seq<real>, ghost iter: nat) returns (converged: bool)
      requires Sized() && successCount > 0 && !policyDerived && Cleared() && g == G()
      requires dp0 == Initial(g, successCount) && dp == Iterate(g, dp0, iter)
      modifies this`dp, this`policyDerived, this`actionCache, this`bestLockCache, this`lockSuccessProbabilityCache
      ensures Sized() && G() == g
      ensures policyDerived ==> Settled(g, dp) && Derived()
      ensures dp == Iterate(g, dp0, iter + 1)
      ensures converged <==> MaxDelta(g, Iterate(g, dp0, iter), NUM_FULL_MASKS) <= tol
      ensures converged <==> policyDerived
      ensures !converged ==> Cleared()
    {
      var next, maxDelta := BellmanPass();
      dp := next;
      assert dp == Iterate(g, dp0, iter + 1);
      converged := maxDelta <= tol;
      if converged {
        Finish(g, dp0, iter + 1);
      }
    }

    /** The end of a converged loop: fill the caches and mark the policy derived. */
    method Finish(ghost g: RerollGame, ghost dp0: seq<real>, ghost passes: nat)
      requires Sized() && successCount > 0 && g == G() && passes >= 1
      requires dp0 == Initial(g, successCount) && dp == Iterate(g, dp0, passes)
      modifies this`policyDerived, this`actionCache, this`bestLockCache, this`lockSuccessProbabilityCache
      ensures policyDerived && Settled(g, dp) && Derived()
    {
      IterateSettled(g, successCount, passes);
      BuildActionCache();
      policyDerived := true;
    }

    /** The iteration loop of `derive_policy`, from the initial values. */
    method Iterations(tol: real, maxIter: nat, ghost g: RerollGame, ghost dp0: seq<real>)
      returns (r: Result<(), RerollError>, ghost passes: nat)
      requires Sized() && successCount > 0 && !policyDerived && Cleared() && tol > 0.0
      requires g == G() && dp0 == Initial(g, successCount) && dp == dp0
      modifies this`dp, this`policyDerived, this`actionCache, this`bestLockCache, this`lockSuccessProbabilityCache
      ensures Sized() && G() == g
      ensures policyDerived ==> Settled(g, dp) && Derived()
      ensures passes <= maxIter
      ensures dp == Iterate(g, dp0, passes)
      ensures r.Ok? <==> StopsAfter(g, dp0, tol, passes)
      ensures r.Ok? <==> policyDerived
      ensures r.Err? ==> && r.error == FailedToConvergeWithinMaxIter && passes == maxIter && Cleared()
                         && forall j :: 0 <= j < maxIter ==> MaxDelta(g, Iterate(g, dp0, j), NUM_FULL_MASKS) > tol
    {
      for iter := 0 to maxIter
        invariant Sized() && !policyDerived && Cleared() && G() == g
        invariant dp == Iterate(g, dp0, iter)
        invariant forall j :: 0 <= j < iter ==> MaxDelta(g, Iterate(g, dp0, j), NUM_FULL_MASKS) > tol
      {
        var converged := Pass(tol, g, dp0, iter);
        if converged {
          StopsHere(g, dp0, tol, iter);
          return Ok(()), iter + 1;
        }
      }
      NeverStops(g, dp0, tol, maxIter);
      return Err(FailedToConvergeWithinMaxIter), maxIter;
    }

    // -------------------------------------------------------------------
    // Queries

    /** `lock` is one of state `i`'s locks and as cheap as any: its action value is the Bellman value. */
    ghost predicate OptimalLock(i: nat, lock: nat)
      reads this`success, this`dp
      requires Sized() && i < NUM_FULL_MASKS
    {
      LocksPriced(G(), dp, i);
      && lock in lockSets[i]
      && ActionValue(G(), dp, dp[i], lock) == Bellman(G(), dp, i)
      && forall other :: other in lockSets[i] ==> ActionValue(G(), dp, dp[i], lock) <= ActionValue(G(), dp, dp[i], other)
    }

    /** What the caches say about state `i` once the policy is derived. */
    lemma RankedAt(i: nat)
      requires Valid() && policyDerived && i < NUM_FULL_MASKS
      ensures success[i] ==> actionCache[i] == [] && bestLockCache[i] == None
      ensures !success[i] ==>
        && RegretOrdered(actionCache[i]) && ChoicesOfState(G(), dp, i, actionCache[i])
        && bestLockCache[i] == Some(actionCache[i][0].lockMask)
        && OptimalLock(i, actionCache[i][0].lockMask)
        && IsSubmask(actionCache[i][0].lockMask, fullMasks[i])
        && Popcount(actionCache[i][0].lockMask) <= MAX_LOCK_SIZE
        && IsSubmask(actionCache[i][0].lockMask, positiveMask)
    {
      var g := G();
      assert actionCache[i] == Choices(g, dp, i);
      if !success[i] {
        ChoicesRanked(g, dp, i);
        var c := actionCache[i];
        var best := c[0].lockMask;
        assert FaithfulChoice(g, dp, i, c[0].(regret := 0.0));
        var locks := lockSets[i];
        LocksPriced(g, dp, i);
        BestOverIsMinimum(g, dp, dp[i], locks);
        forall other | other in locks
          ensures ActionValue(g, dp, dp[i], best) <= ActionValue(g, dp, dp[i], other)
        {
          var k :| 0 <= k < |locks| && locks[k] == other;
        }
        LockSetMembers(positiveMask, fullMasks[i]);
      }
    }

    /** A prefix of ranked choices is ranked. */
    lemma RankedPrefix(c: seq<LockChoice>, k: nat)
      requires RegretOrdered(c) && 0 < k <= |c|
      ensures RegretOrdered(c[..k]) && c[..k][0] == c[0]
    {
    }

    /**
     * `best_lock_choices`: no lock for a state that meets the target;
     * otherwise the first lock of its ranking, a payable submask of the
     * echo over positive-weight buffs that attains the Bellman value.
     */
    function BestLockChoices(mask: nat): (r: Result<Option<nat>, RerollError>)
      reads this
      requires Valid()
      ensures !policyDerived ==> r == Err(PolicyNotDerived)
      ensures policyDerived && !IsValidExternalFullMask(mask) ==> r == Err(InvalidMask(mask))
      ensures policyDerived && IsValidExternalFullMask(mask) ==>
        && r.Ok? && (r.value.None? <==> success[StateOf(mask)])
        && (r.value.Some? ==>
              && OptimalLock(StateOf(mask), r.value.value)
              && IsSubmask(r.value.value, mask) && Popcount(r.value.value) <= MAX_LOCK_SIZE
              && IsSubmask(r.value.value, positiveMask))
    {
      if !policyDerived then Err(PolicyNotDerived)
      else if !IsValidExternalFullMask(mask) then Err(InvalidMask(mask))
      else
        IndexInTable(mask);
        var index := MaskToIndex(Full, mask);
        if success[index] then Ok(None)
        else
          RankedAt(index);
          Ok(bestLockCache[index])
    }

    /** The first `topK` choices of state `i` (all of them when `topK` is 0 or too large). */
    ghost predicate TopChoices(i: nat, topK: nat, c: seq<LockChoice>)
      reads this`success, this`dp
      requires Sized() && i < NUM_FULL_MASKS
    {
      if success[i] then c == []
      else
        var n := |lockSets[i]|;
        && |c| == (if topK == 0 || topK > n then n else topK)
        && RegretOrdered(c)
        && (forall j :: 0 <= j < |c| ==> FaithfulChoice(G(), dp, i, c[j].(regret := 0.0)))
        && OptimalLock(i, c[0].lockMask)
        && (|c| == n ==> forall lock :: lock in lockSets[i] ==> exists j :: 0 <= j < |c| && c[j].lockMask == lock)
    }

    /** How many choices `lock_choices` keeps. */
    static function Keep(topK: nat, n: nat): (r: nat)
      ensures r <= n
      ensures 0 < topK <= n ==> r == topK
    {
      if topK == 0 || topK > n then n else topK
    }

    lemma TopOfCache(i: nat, topK: nat)
      requires Valid() && policyDerived && i < NUM_FULL_MASKS
      ensures TopChoices(i, topK, actionCache[i][..Keep(topK, |actionCache[i]|)])
    {
      RankedAt(i);
      var c := actionCache[i];
      var keep := Keep(topK, |c|);
      if !success[i] {
        RankedPrefix(c, keep);
        var top := c[..keep];
        assert top[0] == c[0];
        assert forall j :: 0 <= j < keep ==> top[j] == c[j];
        if keep == |c| {
          assert top == c;
        }
      }
    }

    /**
     * `lock_choices`: the ranked choices of a state, cut to `topK`; none
     * for a state that meets the target.
     */
    function LockChoices(mask: nat, topK: nat): (r: Result<seq<LockChoice>, RerollError>)
      reads this
      requires Valid()
      ensures !policyDerived ==> r == Err(PolicyNotDerived)
      ensures policyDerived && !IsValidExternalFullMask(mask) ==> r == Err(InvalidMask(mask))
      ensures policyDerived && IsValidExternalFullMask(mask) ==> r.Ok? && TopChoices(StateOf(mask), topK, r.value)
    {
      if !policyDerived then Err(PolicyNotDerived)
      else if !IsValidExternalFullMask(mask) then Err(InvalidMask(mask))
      else
        IndexInTable(mask);
        var index := MaskToIndex(Full, mask);
        var choices := actionCache[index];
        var keep := Keep(topK, |choices|);
        TopOfCache(index, topK);
        Ok(choices[..keep])
    }

    /** The first of the listed choices is the lock `best_lock_choices` reports. */
    lemma FirstChoiceIsBest(mask: nat, topK: nat)
      requires Valid() && policyDerived && IsValidExternalFullMask(mask)
      requires LockChoices(mask, topK).value != []
      ensures BestLockChoices(mask) == Ok(Some(LockChoices(mask, topK).value[0].lockMask))
    {
      var i := StateOf(mask);
      RankedAt(i);
      assert LockChoices(mask, topK).value[0] == actionCache[i][0];
    }

    /** `expected_lock_cost`: the state's value, 0 exactly on success and at least one reroll otherwise. */
    function ExpectedLockCost(mask: nat): (r: Result<real, RerollError>)
      reads this
      requires Valid()
      ensures !policyDerived ==> r == Err(PolicyNotDerived)
      ensures policyDerived && !IsValidExternalFullMask(mask) ==> r == Err(InvalidMask(mask))
      ensures policyDerived && IsValidExternalFullMask(mask) ==>
        && r.Ok? && r.value >= 0.0
        && (success[StateOf(mask)] <==> r.value == 0.0)
        && (!success[StateOf(mask)] ==> r.value >= 1.0)
    {
      if !policyDerived then Err(PolicyNotDerived)
      else if !IsValidExternalFullMask(mask) then Err(InvalidMask(mask))
      else
        IndexInTable(mask);
        Ok(dp[MaskToIndex(Full, mask)])
    }

    /** `best_lock_success_probability`: none on success, otherwise the chance one reroll under the best lock succeeds. */
    function BestLockSuccessProbability(mask: nat): (r: Result<Option<real>, RerollError>)
      reads this
      requires Valid()
      ensures !policyDerived ==> r == Err(PolicyNotDerived)
      ensures policyDerived && !IsValidExternalFullMask(mask) ==> r == Err(InvalidMask(mask))
      ensures policyDerived && IsValidExternalFullMask(mask) ==>
        && r.Ok? && (r.value.None? <==> success[StateOf(mask)])
        && (r.value.Some? ==>
              && 0.0 <= r.value.value <= 1.0
              && BestLockChoices(mask).Ok? && BestLockChoices(mask).value.Some?
              && r.value.value == LockSuccessProbability(G(), BestLockChoices(mask).value.value))
    {
      if !policyDerived then Err(PolicyNotDerived)
      else if !IsValidExternalFullMask(mask) then Err(InvalidMask(mask))
      else
        IndexInTable(mask);
        var index := MaskToIndex(Full, mask);
        if success[index] then Ok(None)
        else
          RankedAt(index);
          var choices := actionCache[index];
          assert FaithfulChoice(G(), dp, index, choices[0].(regret := 0.0));
          LockSuccessProbabilityBounds(G(), choices[0].lockMask);
          Ok(if choices == [] then None else Some(choices[0].successProbability))
    }

    /**
     * `should_accept`: keep the candidate exactly when its expected cost is
     * no higher than the baseline's; a candidate that meets the target is
     * always accepted, and one that misses it never replaces a baseline
     * that meets it.
     */
    function ShouldAccept(baselineMask: nat, candidateMask: nat): (r: Result<bool, RerollError>)
      reads this
      requires Valid()
      ensures !policyDerived ==> r == Err(PolicyNotDerived)
      ensures policyDerived && !IsValidExternalFullMask(baselineMask) ==> r == Err(InvalidMask(baselineMask))
      ensures policyDerived && IsValidExternalFullMask(baselineMask) && !IsValidExternalFullMask(candidateMask) ==>
        r == Err(InvalidMask(candidateMask))
      ensures policyDerived && IsValidExternalFullMask(baselineMask) && IsValidExternalFullMask(candidateMask) ==>
        && r.Ok?
        && (r.value <==> ExpectedLockCost(candidateMask).value <= ExpectedLockCost(baselineMask).value)
        && (success[StateOf(candidateMask)] ==> r.value)
        && (baselineMask == candidateMask ==> r.value)
        && (success[StateOf(baselineMask)] && !success[StateOf(candidateMask)] ==> !r.value)
    {
      if !policyDerived then Err(PolicyNotDerived)
      else if !IsValidExternalFullMask(baselineMask) then Err(InvalidMask(baselineMask))
      else if !IsValidExternalFullMask(candidateMask) then Err(InvalidMask(candidateMask))
      else
        IndexInTable(baselineMask);
        IndexInTable(candidateMask);
        var baselineDp := dp[MaskToIndex(Full, baselineMask)];
        var candidateDp := dp[MaskToIndex(Full, candidateMask)];
        Ok(candidateDp <= baselineDp)
    }
  }

  /**
   * `RerollPolicySolver::new`: weights the fixed scorer refuses give
   * `InvalidWeights`; otherwise a solver without a target.
   */
  method NewRerollPolicySolver(weights: seq<F64>) returns (r: Result<RerollPolicySolver, RerollError>)
    requires |weights| == NUM_BUFFS
    ensures r.Err? <==> !(WeightCheck(weights).Ok? && TopWeightsSum(WeightValues(weights)) <= FIXED_SCORER_SCORE_LIMIT)
    ensures r.Err? ==> r.error == InvalidWeights
    ensures r.Ok? ==> && fresh(r.value) && r.value.Valid() && r.value.scorer == FixedScorer(WeightValues(weights))
                      && r.value.targetScore.None? && !r.value.policyDerived
  {
    var scorer := NewFixedScorer(weights);
    if scorer.Err? {
      return Err(InvalidWeights);
    }
    var solver := new RerollPolicySolver(scorer.value);
    return Ok(solver);
  }
}
