/**
 * The static tables of the reroll solver (rust/src/reroll_policy.rs,
 * `RerollPolicySolver::new`): the fixed score of every full mask, the
 * highest of them, the lockable subsets ("lock sets") of every full mask,
 * and for every lock the full masks that contain it ("transitions"), with
 * the lock costs they are priced by.
 */
module RerollTables {
  import opened Base
  import opened Bits
  import opened Data
  import opened Mask
  import opened Scoring

  /** A lock leaves at least one slot to reroll. */
  const MAX_LOCK_SIZE: nat := NUM_ECHO_SLOTS - 1
  /** `transitions` and the lock success probabilities have one entry per mask up to `FULL_MASK_SPACE`. */
  const LOCK_TABLE_SIZE: nat := FULL_MASK_SPACE + 1

  // ---------------------------------------------------------------------
  // Lock costs

  /** `lock_cost(k)`: the price of one reroll with `k` buffs locked. */
  function LockCost(k: nat): F64
  {
    if k <= 2 then Finite(1.0)
    else if k == 3 then Finite(2.0)
    else if k == 4 then Finite(3.0)
    else PosInf
  }

  /** Locking is payable exactly up to four buffs, costs at least one, and never gets cheaper with more locks. */
  lemma LockCostShape(j: nat, k: nat)
    ensures LockCost(k).Finite? <==> k <= MAX_LOCK_SIZE
    ensures k <= MAX_LOCK_SIZE ==> LockCost(k).val >= 1.0
    ensures j <= k <= MAX_LOCK_SIZE ==> LockCost(j).val <= LockCost(k).val
    ensures LockCost(0) == Finite(1.0)
  {
  }

  // ---------------------------------------------------------------------
  // Lockable subsets

  /** `positive_weight_mask` over the first `n` buffs: a bit for each positive weight. */
  function PositiveMask(weights: seq<real>, n: nat): nat
    requires n <= |weights|
  {
    if n == 0 then 0
    else PositiveMask(weights, n - 1) + (if weights[n - 1] > 0.0 then Pow2(n - 1) else 0)
  }

  lemma {:induction false} PositiveMaskBits(weights: seq<real>, n: nat)
    requires n <= |weights|
    ensures PositiveMask(weights, n) < Pow2(n)
    ensures forall i: nat :: Bit(PositiveMask(weights, n), i) <==> i < n && weights[i] > 0.0
  {
    if n == 0 {
      forall i: nat ensures !Bit(0, i) { ZeroHasNoBits(i); }
    } else {
      var m := PositiveMask(weights, n - 1);
      PositiveMaskBits(weights, n - 1);
      if weights[n - 1] > 0.0 {
        AddBit(m, n - 1);
      }
    }
  }

  /** `!x` on a `u16`. */
  function NotU16(x: nat): nat
    requires x <= U16_MAX
  {
    U16_MAX - x
  }

  /** The test `new` applies to a submask: at most four buffs, and only positive-weight buffs. */
  predicate Lockable(positive: nat, sub: nat)
    requires positive <= U16_MAX
  {
    NumFilledSlots(sub) <= MAX_LOCK_SIZE && And(sub, NotU16(positive)) == 0
  }

  /** `(sub & !positive) == 0` says that `sub` is a submask of `positive`. */
  lemma LockableMeans(positive: nat, sub: nat)
    requires positive <= U16_MAX && sub <= U16_MAX
    ensures Lockable(positive, sub) <==> Popcount(sub) <= MAX_LOCK_SIZE && IsSubmask(sub, positive)
  {
    assert Pow2(8) == 256;
    assert Pow2(16) == U16_MAX + 1;
    Complement(positive, 16);
    AndBits(sub, NotU16(positive));
    BitsBelowPow2(sub, 16);
    SubmaskBits(sub, positive);
    var both := And(sub, NotU16(positive));
    if forall i: nat :: Bit(sub, i) ==> Bit(positive, i) {
      forall i: nat ensures Bit(both, i) == Bit(0, i) {
        ZeroHasNoBits(i);
      }
      BitsDetermine(both, 0);
    } else {
      var i: nat :| Bit(sub, i) && !Bit(positive, i);
      ZeroHasNoBits(i);
      assert Bit(both, i);
    }
  }

  /** The lockable entries of a submask walk, in walk order. */
  function LockFilter(positive: nat, walk: seq<nat>): seq<nat>
    requires positive <= U16_MAX
  {
    if walk == [] then []
    else (if Lockable(positive, walk[0]) then [walk[0]] else []) + LockFilter(positive, walk[1..])
  }

  lemma {:induction false} LockFilterMembers(positive: nat, walk: seq<nat>)
    requires positive <= U16_MAX
    ensures forall x :: x in LockFilter(positive, walk) <==> x in walk && Lockable(positive, x)
  {
    if walk != [] {
      LockFilterMembers(positive, walk[1..]);
    }
  }

  predicate StrictlyDescending(s: seq<nat>)
  {
    forall i, j :: 0 <= i < j < |s| ==> s[i] > s[j]
  }

  /** Filtering keeps a strictly descending walk strictly descending. */
  lemma {:induction false} LockFilterDescending(positive: nat, walk: seq<nat>)
    requires positive <= U16_MAX && StrictlyDescending(walk)
    ensures StrictlyDescending(LockFilter(positive, walk))
  {
    if walk != [] {
      var tail := walk[1..];
      assert StrictlyDescending(tail) by {
        forall i, j | 0 <= i < j < |tail| ensures tail[i] > tail[j] {
          assert walk[i + 1] > walk[j + 1];
        }
      }
      LockFilterDescending(positive, tail);
      LockFilterMembers(positive, tail);
      var rest := LockFilter(positive, tail);
      if Lockable(positive, walk[0]) {
        var all := [walk[0]] + rest;
        forall i, j | 0 <= i < j < |all| ensures all[i] > all[j] {
          if i == 0 {
            assert all[j] == rest[j - 1] && rest[j - 1] in tail;
            var k :| 0 <= k < |tail| && tail[k] == rest[j - 1];
            assert walk[k + 1] == rest[j - 1];
          } else {
            assert all[i] == rest[i - 1] && all[j] == rest[j - 1];
          }
        }
      }
    }
  }

  /** `lock_sets[i]` for the full mask `mask`: its lockable submasks, from `mask` itself down to 0. */
  function LockSet(positive: nat, mask: nat): seq<nat>
    requires positive <= U16_MAX
  {
    LockFilter(positive, SubmaskWalk(mask, mask))
  }

  lemma SelfSubmask(m: nat)
    ensures IsSubmask(m, m)
  {
    AndBits(m, m);
    BitsDetermine(And(m, m), m);
  }

  /**
   * A lock set holds exactly the submasks of the mask with at most four
   * buffs, all of positive weight; it always holds 0 (reroll everything),
   * and it lists each lock once, in descending order.
   */
  lemma LockSetMembers(positive: nat, mask: nat)
    requires positive <= U16_MAX && mask <= U16_MAX
    ensures forall x: nat :: x in LockSet(positive, mask) <==>
      IsSubmask(x, mask) && Popcount(x) <= MAX_LOCK_SIZE && IsSubmask(x, positive)
    ensures 0 in LockSet(positive, mask)
    ensures StrictlyDescending(LockSet(positive, mask))
    ensures forall x :: x in LockSet(positive, mask) ==> x <= mask
  {
    var walk := SubmaskWalk(mask, mask);
    SelfSubmask(mask);
    SubmaskWalkDecreasing(mask, mask);
    LockFilterMembers(positive, walk);
    LockFilterDescending(positive, walk);
    forall x: nat ensures x in LockSet(positive, mask) <==> IsSubmask(x, mask) && Popcount(x) <= MAX_LOCK_SIZE && IsSubmask(x, positive) {
      SubmaskWalkComplete(mask, mask, x);
      if x in walk {
        LockableMeans(positive, x);
      }
    }
    assert IsSubmask(0, mask) && IsSubmask(0, positive);
  }

  /** `transitions[lock]` after the first `n` full masks: the indices whose lock set holds `lock`, ascending. */
  function TransitionsBelow(positive: nat, masks: seq<nat>, n: nat, lock: nat): seq<nat>
    requires positive <= U16_MAX && n <= |masks|
  {
    if n == 0 then []
    else TransitionsBelow(positive, masks, n - 1, lock) + (if lock in LockSet(positive, masks[n - 1]) then [n - 1] else [])
  }

  /** The transitions of a lock are the full masks it can lead to, each listed once, in ascending order. */
  lemma {:induction false} TransitionsMembers(positive: nat, masks: seq<nat>, n: nat, lock: nat)
    requires positive <= U16_MAX && n <= |masks|
    ensures forall k: nat :: k in TransitionsBelow(positive, masks, n, lock) <==> k < n && lock in LockSet(positive, masks[k])
    ensures forall i, j :: 0 <= i < j < |TransitionsBelow(positive, masks, n, lock)| ==>
      TransitionsBelow(positive, masks, n, lock)[i] < TransitionsBelow(positive, masks, n, lock)[j]
  {
    if n > 0 {
      TransitionsMembers(positive, masks, n - 1, lock);
      var before := TransitionsBelow(positive, masks, n - 1, lock);
      var all := TransitionsBelow(positive, masks, n, lock);
      forall i, j | 0 <= i < j < |all| ensures all[i] < all[j] {
        if j < |before| {
          assert all[i] == before[i] && all[j] == before[j];
        } else {
          assert all[i] == before[i] && before[i] in before;
        }
      }
    }
  }

  // ---------------------------------------------------------------------
  // The full-mask table

  /** The enumeration of full masks and its inverse `full_mask_to_index` agree, as the solver relies on. */
  ghost predicate FullTable(masks: seq<nat>)
  {
    && |masks| == NUM_FULL_MASKS
    && (forall k :: 0 <= k < |masks| ==>
          masks[k] <= FULL_MASK_SPACE && IsValidFullMask(masks[k]) && MaskToIndex(Full, masks[k]) == k)
    && (forall m: nat {:trigger IsValidExternalFullMask(m)} :: IsValidExternalFullMask(m) ==>
          m <= FULL_MASK_SPACE && MaskToIndex(Full, m) < NUM_FULL_MASKS && masks[MaskToIndex(Full, m)] == m)
  }

  /** `FULL_MASKS` is such a table. */
  lemma FullTableOfMasks(kind: Kind, masks: seq<nat>)
    requires kind == Full && masks == Masks(kind)
    ensures FullTable(masks)
  {
    MaskIndexBijection(kind);
    MaskCounts(kind);
    forall k | 0 <= k < |masks|
      ensures masks[k] <= FULL_MASK_SPACE && IsValidFullMask(masks[k]) && MaskToIndex(Full, masks[k]) == k
    {
      BelowMembers(kind, Space(kind) + 1);
      assert Valid(kind, masks[k]);
    }
    forall m: nat | IsValidExternalFullMask(m)
      ensures m <= FULL_MASK_SPACE && MaskToIndex(Full, m) < NUM_FULL_MASKS && masks[MaskToIndex(Full, m)] == m
    {
      assert IsMaskInDomain(m) && Valid(kind, m);
    }
  }

  // ---------------------------------------------------------------------
  // Scores

  /** The fixed score of the buffs of `mask` among the first `n` buff types. */
  function MaskScore(s: Scorer, mask: nat, n: nat): (r: real)
    requires ValidScorer(s) && n <= NUM_BUFFS
    ensures r >= 0.0
  {
    if n == 0 then 0.0
    else MaskScore(s, mask, n - 1) + (if Bit(mask, n - 1) then BuffScore(s, n - 1, 0.0) else 0.0)
  }

  /** Dropping buffs never raises the score: a lock scores at most as much as its echo. */
  lemma {:induction false} MaskScoreSubmask(s: Scorer, sub: nat, mask: nat, n: nat)
    requires ValidScorer(s) && n <= NUM_BUFFS && IsSubmask(sub, mask)
    ensures MaskScore(s, sub, n) <= MaskScore(s, mask, n)
  {
    if n > 0 {
      MaskScoreSubmask(s, sub, mask, n - 1);
      SubmaskBits(sub, mask);
    }
  }

  /** The running maximum `max_score` over the first `n` scores, starting from 0. */
  function MaxScore(scores: seq<real>, n: nat): real
    requires n <= |scores|
  {
    if n == 0 then 0.0
    else
      var m := MaxScore(scores, n - 1);
      if scores[n - 1] > m then scores[n - 1] else m
  }

  /** The maximum bounds every score and 0 from above, and a non-negative list reaches it. */
  lemma {:induction false} MaxScoreBounds(scores: seq<real>, n: nat)
    requires n <= |scores|
    ensures MaxScore(scores, n) >= 0.0
    ensures forall k :: 0 <= k < n ==> scores[k] <= MaxScore(scores, n)
    ensures n > 0 && (forall k :: 0 <= k < n ==> scores[k] >= 0.0) ==>
      exists k :: 0 <= k < n && scores[k] == MaxScore(scores, n)
  {
    if n > 0 {
      MaxScoreBounds(scores, n - 1);
      if n - 1 > 0 || scores[n - 1] > 0.0 {
      } else {
        assert (forall k :: 0 <= k < n ==> scores[k] >= 0.0) ==> scores[0] == MaxScore(scores, n);
      }
    }
  }

  // ---------------------------------------------------------------------
  // Building the tables

  /** The `positive_weight_mask` loop. */
  method PositiveWeightMask(weights: seq<real>) returns (positive: nat)
    requires |weights| == NUM_BUFFS
    ensures positive == PositiveMask(weights, NUM_BUFFS)
  {
    positive := 0;
    for i := 0 to NUM_BUFFS
      invariant positive == PositiveMask(weights, i)
    {
      if weights[i] > 0.0 {
        PositiveMaskBits(weights, i);
        BitsBelowPow2(positive, i);
        OrPow2(positive, i);
        positive := Or(positive, Pow2(i));
      }
    }
  }

  /** The score loop of `new`: `buff_score(b, 0.0)` summed over the bits of `mask`. */
  method MaskScoreOf(s: Scorer, mask: nat) returns (sum: real)
    requires ValidScorer(s)
    ensures sum == MaskScore(s, mask, NUM_BUFFS)
  {
    sum := 0.0;
    for b := 0 to NUM_BUFFS
      invariant sum == MaskScore(s, mask, b)
    {
      AndPow2(mask, b);
      if And(mask, Pow2(b)) != 0 {
        sum := sum + BuffScore(s, b, 0.0);
      }
    }
  }

  /** The other lock sets' transitions plus `index` for every lock of this one. */
  predicate AddedTransitions(before: seq<seq<nat>>, after: seq<seq<nat>>, locks: seq<nat>, index: nat)
  {
    |after| == |before| &&
    forall lock :: 0 <= lock < |after| ==> after[lock] == before[lock] + (if lock in locks then [index] else [])
  }

  /**
   * The submask walk of `new` for the full mask `mask` at `index`: collect
   * the lockable submasks and record `index` as a transition of each.
   */
  method CollectLocks(positive: nat, mask: nat, index: nat, transitions: seq<seq<nat>>)
    returns (subsets: seq<nat>, updated: seq<seq<nat>>)
    requires positive <= U16_MAX && mask < |transitions|
    ensures subsets == LockSet(positive, mask)
    ensures AddedTransitions(transitions, updated, subsets, index)
  {
    subsets := [];
    updated := transitions;
    var sub: nat := mask;
    while true
      invariant sub <= mask
      invariant subsets + LockFilter(positive, SubmaskWalk(mask, sub)) == LockSet(positive, mask)
      invariant forall x :: x in subsets ==> x > sub
      invariant AddedTransitions(transitions, updated, subsets, index)
      decreases sub
    {
      ghost var locks := subsets;
      subsets, updated := VisitSubmask(positive, sub, index, transitions, subsets, updated);
      WalkStep(positive, mask, sub, locks);
      if sub == 0 {
        break;
      }
      sub := And(sub - 1, mask);
    }
  }

  /** The body of the walk: keep `sub` when it is lockable and record the transition. */
  method VisitSubmask(positive: nat, sub: nat, index: nat, transitions: seq<seq<nat>>,
                      subsets: seq<nat>, updated: seq<seq<nat>>)
    returns (subsets': seq<nat>, updated': seq<seq<nat>>)
    requires positive <= U16_MAX && sub < |transitions|
    requires forall x :: x in subsets ==> x > sub
    requires AddedTransitions(transitions, updated, subsets, index)
    ensures subsets' == subsets + (if Lockable(positive, sub) then [sub] else [])
    ensures forall x :: x in subsets' ==> x >= sub
    ensures AddedTransitions(transitions, updated', subsets', index)
  {
    subsets' := subsets;
    updated' := updated;
    if NumFilledSlots(sub) <= MAX_LOCK_SIZE && And(sub, NotU16(positive)) == 0 {
      subsets' := subsets + [sub];
      updated' := updated[sub := updated[sub] + [index]];
    }
  }

  /** One step of the walk: the collected locks and the rest of the walk's lockable submasks still make up the lock set. */
  lemma WalkStep(positive: nat, mask: nat, sub: nat, locks: seq<nat>)
    requires positive <= U16_MAX
    requires locks + LockFilter(positive, SubmaskWalk(mask, sub)) == LockSet(positive, mask)
    ensures sub == 0 ==> locks + (if Lockable(positive, 0) then [0] else []) == LockSet(positive, mask)
    ensures sub > 0 ==> And(sub - 1, mask) < sub
    ensures sub > 0 ==>
      (locks + (if Lockable(positive, sub) then [sub] else [])) + LockFilter(positive, SubmaskWalk(mask, And(sub - 1, mask)))
        == LockSet(positive, mask)
  {
    var here := if Lockable(positive, sub) then [sub] else [];
    if sub == 0 {
      assert SubmaskWalk(mask, sub) == [0];
      assert LockFilter(positive, [0]) == here + LockFilter(positive, []);
    } else {
      var next := And(sub - 1, mask);
      assert SubmaskWalk(mask, sub) == [sub] + SubmaskWalk(mask, next);
      assert ([sub] + SubmaskWalk(mask, next))[1..] == SubmaskWalk(mask, next);
      assert LockFilter(positive, SubmaskWalk(mask, sub)) == here + LockFilter(positive, SubmaskWalk(mask, next));
      assert (locks + here) + LockFilter(positive, SubmaskWalk(mask, next)) ==
        locks + (here + LockFilter(positive, SubmaskWalk(mask, next)));
    }
  }

  /** What the table loop of `new` has built after the first `n` full masks. */
  ghost predicate TablesUpTo(s: Scorer, positive: nat, masks: seq<nat>, n: nat, scores: seq<real>, maxScore: real,
                             lockSets: seq<seq<nat>>, transitions: seq<seq<nat>>)
    requires ValidScorer(s) && positive <= U16_MAX && |masks| == NUM_FULL_MASKS && n <= NUM_FULL_MASKS
  {
    && |scores| == NUM_FULL_MASKS
    && (forall k :: 0 <= k < n ==> scores[k] == MaskScore(s, masks[k], NUM_BUFFS))
    && maxScore == MaxScore(scores, n)
    && |lockSets| == n
    && (forall k :: 0 <= k < n ==> lockSets[k] == LockSet(positive, masks[k]))
    && |transitions| == LOCK_TABLE_SIZE
    && (forall lock :: 0 <= lock < LOCK_TABLE_SIZE ==>
          transitions[lock] == TransitionsBelow(positive, masks, n, lock))
  }

  /** Everything `new` derives from the scorer and the weights' positive mask. */
  ghost predicate TablesOf(s: Scorer, positive: nat, masks: seq<nat>, scores: seq<real>, maxScore: real,
                           lockSets: seq<seq<nat>>, transitions: seq<seq<nat>>)
    requires ValidScorer(s) && positive <= U16_MAX && |masks| == NUM_FULL_MASKS
  {
    TablesUpTo(s, positive, masks, NUM_FULL_MASKS, scores, maxScore, lockSets, transitions)
  }

  /** The table loop of `new`. */
  method BuildTables(s: Scorer, positive: nat, masks: seq<nat>)
    returns (scores: seq<real>, maxScore: real, lockSets: seq<seq<nat>>, transitions: seq<seq<nat>>)
    requires ValidScorer(s) && positive <= U16_MAX && FullTable(masks)
    ensures TablesOf(s, positive, masks, scores, maxScore, lockSets, transitions)
  {
    scores := seq(NUM_FULL_MASKS, _ => 0.0);
    maxScore := 0.0;
    lockSets := [];
    transitions := seq(LOCK_TABLE_SIZE, _ => []);
    for index := 0 to NUM_FULL_MASKS
      invariant TablesUpTo(s, positive, masks, index, scores, maxScore, lockSets, transitions)
    {
      scores, maxScore, lockSets, transitions := AddFullMask(s, positive, masks, index, scores, maxScore, lockSets, transitions);
    }
  }

  /** One pass of the table loop: score the full mask at `index` and walk its submasks. */
  method AddFullMask(s: Scorer, positive: nat, masks: seq<nat>, index: nat, scores: seq<real>, maxScore: real,
                     lockSets: seq<seq<nat>>, transitions: seq<seq<nat>>)
    returns (scores': seq<real>, maxScore': real, lockSets': seq<seq<nat>>, transitions': seq<seq<nat>>)
    requires ValidScorer(s) && positive <= U16_MAX && FullTable(masks) && index < NUM_FULL_MASKS
    requires TablesUpTo(s, positive, masks, index, scores, maxScore, lockSets, transitions)
    ensures TablesUpTo(s, positive, masks, index + 1, scores', maxScore', lockSets', transitions')
  {
    var mask := masks[index];
    var sum := MaskScoreOf(s, mask);
    scores' := scores[index := sum];
    maxScore' := if sum > maxScore then sum else maxScore;
    var subsets;
    subsets, transitions' := CollectLocks(positive, mask, index, transitions);
    lockSets' := lockSets + [subsets];
    TablesStep(s, positive, masks, index, scores, maxScore, lockSets, transitions, scores', maxScore', lockSets', transitions');
  }

  lemma TablesStep(s: Scorer, positive: nat, masks: seq<nat>, index: nat, scores: seq<real>, maxScore: real,
                   lockSets: seq<seq<nat>>, transitions: seq<seq<nat>>,
                   scores': seq<real>, maxScore': real, lockSets': seq<seq<nat>>, transitions': seq<seq<nat>>)
    requires ValidScorer(s) && positive <= U16_MAX && |masks| == NUM_FULL_MASKS && index < NUM_FULL_MASKS
    requires TablesUpTo(s, positive, masks, index, scores, maxScore, lockSets, transitions)
    requires scores' == scores[index := MaskScore(s, masks[index], NUM_BUFFS)]
    requires maxScore' == if scores'[index] > maxScore then scores'[index] else maxScore
    requires lockSets' == lockSets + [LockSet(positive, masks[index])]
    requires AddedTransitions(transitions, transitions', LockSet(positive, masks[index]), index)
    ensures TablesUpTo(s, positive, masks, index + 1, scores', maxScore', lockSets', transitions')
  {
    assert scores[..index] == scores'[..index];
    MaxScorePrefix(scores, scores', index);
    assert maxScore' == MaxScore(scores', index + 1);
    assert forall k :: 0 <= k < index + 1 ==> scores'[k] == MaskScore(s, masks[k], NUM_BUFFS);
    assert forall k :: 0 <= k < index + 1 ==> lockSets'[k] == LockSet(positive, masks[k]);
  }

  /** The maximum over a prefix ignores entries past it. */
  lemma {:induction false} MaxScorePrefix(a: seq<real>, b: seq<real>, n: nat)
    requires n <= |a| && n <= |b| && a[..n] == b[..n]
    ensures MaxScore(a, n) == MaxScore(b, n)
  {
    if n > 0 {
      assert a[n - 1] == a[..n][n - 1] && b[n - 1] == b[..n][n - 1];
      assert a[..n - 1] == a[..n][..n - 1] && b[..n - 1] == b[..n][..n - 1];
      MaxScorePrefix(a, b, n - 1);
    }
  }
}
