/**
 * Pieces the two generations of the upgrade-policy solver share: the
 * best-case remaining score of a partial mask (a top-k insertion buffer
 * over the largest buff scores still available) and the per-mask DP cache
 * with its touched list and decision cut-off.
 */
module PolicyCache {
  import opened Base
  import opened Bits
  import opened Data
  import opened Mask

  // ---------------------------------------------------------------------
  // Largest scores, on naturals

  function SumNat(s: seq<nat>): nat
  {
    if s == [] then 0 else SumNat(s[..|s| - 1]) + s[|s| - 1]
  }

  predicate DescendingNat(s: seq<nat>)
  {
    forall i, j :: 0 <= i < j < |s| ==> s[i] >= s[j]
  }

  function ZeroScores(n: nat): (r: seq<nat>)
    ensures |r| == n && forall i :: 0 <= i < n ==> r[i] == 0
  {
    seq(n, _ => 0)
  }

  /** Inserts `x` into a descending sequence after every element at least `x`. */
  function InsertScore(s: seq<nat>, x: nat): (r: seq<nat>)
    ensures |r| == |s| + 1
  {
    if s == [] then [x]
    else if x > s[0] then [x] + s
    else [s[0]] + InsertScore(s[1..], x)
  }

  lemma {:induction false} InsertScorePermutes(s: seq<nat>, x: nat)
    ensures multiset(InsertScore(s, x)) == multiset(s) + multiset{x}
  {
    if s != [] && x <= s[0] {
      InsertScorePermutes(s[1..], x);
      assert s == [s[0]] + s[1..];
    }
  }

  lemma {:induction false} InsertScoreKeepsOrder(s: seq<nat>, x: nat)
    requires DescendingNat(s)
    ensures DescendingNat(InsertScore(s, x))
  {
    if s != [] && x <= s[0] {
      InsertScoreKeepsOrder(s[1..], x);
      InsertScorePermutes(s[1..], x);
      var r := InsertScore(s, x);
      forall k | 1 <= k < |r|
        ensures r[0] >= r[k]
      {
        assert r[k] in multiset(InsertScore(s[1..], x));
        assert r[k] in multiset(s[1..]) || r[k] == x;
        if r[k] != x {
          var m :| 0 <= m < |s[1..]| && s[1..][m] == r[k];
          assert s[1 + m] == r[k];
        }
      }
    }
  }

  /** A descending permutation: insertion sort, left to right. */
  function SortScores(s: seq<nat>): (r: seq<nat>)
    ensures |r| == |s|
  {
    if s == [] then [] else InsertScore(SortScores(s[..|s| - 1]), s[|s| - 1])
  }

  lemma {:induction false} SortScoresSorts(s: seq<nat>)
    ensures multiset(SortScores(s)) == multiset(s)
    ensures DescendingNat(SortScores(s))
  {
    if s != [] {
      SortScoresSorts(s[..|s| - 1]);
      InsertScorePermutes(SortScores(s[..|s| - 1]), s[|s| - 1]);
      InsertScoreKeepsOrder(SortScores(s[..|s| - 1]), s[|s| - 1]);
      assert s == s[..|s| - 1] + [s[|s| - 1]];
    }
  }

  /** The `k` largest among `xs` and `k` zeros (the initial buffer), descending. */
  function TopScores(k: nat, xs: seq<nat>): (r: seq<nat>)
    ensures |r| == k
  {
    SortScores(ZeroScores(k) + xs)[..k]
  }

  lemma TopScoresDescending(k: nat, xs: seq<nat>)
    ensures DescendingNat(TopScores(k, xs))
  {
    SortScoresSorts(ZeroScores(k) + xs);
  }

  /** Where the shifting loop stops is where `InsertScore` puts `x`. */
  lemma {:induction false} InsertScoreAt(s: seq<nat>, x: nat, j: nat)
    requires DescendingNat(s) && j <= |s|
    requires j == 0 || s[j - 1] >= x
    requires forall k :: j <= k < |s| ==> x > s[k]
    ensures InsertScore(s, x) == s[..j] + [x] + s[j..]
  {
    if s != [] && j > 0 {
      assert s[0] >= s[j - 1];
      InsertScoreAt(s[1..], x, j - 1);
      assert s[1..][..j - 1] == s[1..j];
      assert s[..j] == [s[0]] + s[1..j];
    }
  }

  /** The first `n` entries after an insertion depend only on the first `n` entries before it. */
  lemma {:induction false} InsertScoreTruncate(s: seq<nat>, x: nat, n: nat)
    requires n <= |s|
    ensures InsertScore(s, x)[..n] == InsertScore(s[..n], x)[..n]
  {
    if n > 0 && x <= s[0] {
      InsertScoreTruncate(s[1..], x, n - 1);
      assert s[..n][1..] == s[1..][..n - 1];
    }
  }

  /** One more score seen: the buffer of a longer sequence. */
  lemma TopScoresStep(k: nat, xs: seq<nat>, x: nat)
    ensures TopScores(k, xs + [x]) == InsertScore(TopScores(k, xs), x)[..k]
  {
    var z := ZeroScores(k);
    var longer := z + (xs + [x]);
    assert longer[..|longer| - 1] == z + xs;
    assert longer[|longer| - 1] == x;
    InsertScoreTruncate(SortScores(z + xs), x, k);
  }

  lemma TopScoresStart(k: nat)
    ensures TopScores(k, []) == ZeroScores(k)
  {
    var z := ZeroScores(k);
    assert z + [] == z;
    SortScoresSorts(z);
    forall i | 0 <= i < k
      ensures SortScores(z)[i] == 0
    {
      assert SortScores(z)[i] in multiset(z);
    }
  }

  /**
   * The buffer holds the `k` largest of the scores and the `k` initial
   * zeros: it is descending, drawn from them, and nothing left out exceeds
   * its smallest entry.
   */
  lemma TopScoresAreLargest(k: nat, xs: seq<nat>)
    requires k > 0
    ensures DescendingNat(TopScores(k, xs))
    ensures multiset(TopScores(k, xs)) <= multiset(ZeroScores(k) + xs)
    ensures forall x :: x in multiset(ZeroScores(k) + xs) - multiset(TopScores(k, xs)) ==>
      x <= TopScores(k, xs)[k - 1]
  {
    var all := SortScores(ZeroScores(k) + xs);
    SortScoresSorts(ZeroScores(k) + xs);
    var top := all[..k];
    var rest := all[k..];
    assert all == top + rest;
    assert multiset(all) == multiset(top) + multiset(rest);
    forall x | x in multiset(ZeroScores(k) + xs) - multiset(top)
      ensures x <= top[k - 1]
    {
      assert x in multiset(rest);
      var m :| 0 <= m < |rest| && rest[m] == x;
      assert all[k + m] == x;
    }
  }

  /**
   * One pass of the insertion loop over the first `k` entries of `top`:
   * skip a score not above the smallest entry, else shift it in.
   */
  method ShiftScoreIn(top: array<nat>, k: nat, score: nat)
    requires 0 < k <= top.Length && DescendingNat(top[..k])
    modifies top
    ensures top[..k] == InsertScore(old(top[..k]), score)[..k]
    ensures top[k..] == old(top[k..])
  {
    ghost var before := top[..k];
    if score <= top[k - 1] {
      InsertScoreAt(before, score, k);
      assert (before + [score])[..k] == before;
      return;
    }
    var j := ShiftDown(top, k, score);
    top[j] := score;
    InsertScoreAt(before, score, j);
    ShiftedInsert(before, top[..k], score, j);
  }

  /** The shifting loop: move every entry below `score` one place down, from the end of the first `k`. */
  method ShiftDown(top: array<nat>, k: nat, score: nat) returns (j: nat)
    requires 0 < k <= top.Length && score > top[k - 1]
    modifies top
    ensures j < k && (j == 0 || old(top[j - 1]) >= score)
    ensures forall i :: 0 <= i < j ==> top[i] == old(top[i])
    ensures forall i :: j < i < k ==> top[i] == old(top[i - 1])
    ensures forall i :: j <= i < k ==> score > old(top[i])
    ensures top[k..] == old(top[k..])
  {
    ghost var before := top[..];
    j := k - 1;
    while j > 0 && score > top[j - 1]
      invariant j < k
      invariant forall i :: 0 <= i < j ==> top[i] == before[i]
      invariant forall i :: j < i < k ==> top[i] == before[i - 1]
      invariant forall i :: j <= i < k ==> score > before[i]
      invariant forall i :: k <= i < top.Length ==> top[i] == before[i]
      decreases j
    {
      top[j] := top[j - 1];
      j := j - 1;
    }
    assert top[k..] == before[k..];
  }

  /** Entries before `j` kept, `score` at `j`, and the rest moved one place down: the insertion, cut to length. */
  lemma ShiftedInsert(before: seq<nat>, after: seq<nat>, score: nat, j: nat)
    requires |after| == |before| && j < |before|
    requires forall i :: 0 <= i < j ==> after[i] == before[i]
    requires after[j] == score
    requires forall i :: j < i < |after| ==> after[i] == before[i - 1]
    ensures after == (before[..j] + [score] + before[j..])[..|before|]
  {
    var inserted := before[..j] + [score] + before[j..];
    forall i | 0 <= i < |after|
      ensures after[i] == inserted[i]
    {
      if i > j {
        assert inserted[i] == before[j..][i - j - 1];
      }
    }
  }

  // ---------------------------------------------------------------------
  // Best-case remaining score

  /** The largest scores of the buffs among the first `n` that `mask` does not contain, in index order. */
  function AbsentScores(mask: nat, maxScores: seq<nat>, n: nat): (r: seq<nat>)
    requires n <= |maxScores|
  {
    if n == 0 then []
    else AbsentScores(mask, maxScores, n - 1) + (if Bit(mask, n - 1) then [] else [maxScores[n - 1]])
  }

  /**
   * The highest score the slots still open on `mask` can add: the sum of the
   * `5 - popcount` largest maximum scores among the absent buffs, or 0 when
   * no slot is open.
   */
  function BestCaseRemaining(mask: nat, maxScores: seq<nat>): nat
    requires |maxScores| == NUM_BUFFS
  {
    if NumFilledSlots(mask) >= NUM_ECHO_SLOTS then 0
    else SumNat(TopScores(NUM_ECHO_SLOTS - NumFilledSlots(mask), AbsentScores(mask, maxScores, NUM_BUFFS)))
  }

  /** `best_case_remaining_score`: the top-k insertion loop over the absent buffs. */
  method BestCaseRemainingScore(mask: nat, maxScores: seq<nat>) returns (best: nat)
    requires |maxScores| == NUM_BUFFS
    ensures best == BestCaseRemaining(mask, maxScores)
  {
    var filled := NumFilledSlots(mask);
    if filled >= NUM_ECHO_SLOTS {
      return 0;
    }
    var remaining := NUM_ECHO_SLOTS - filled;
    var top := new nat[NUM_ECHO_SLOTS](_ => 0);
    TopScoresStart(remaining);
    assert top[..remaining] == ZeroScores(remaining);
    for b := 0 to NUM_BUFFS
      invariant top[..remaining] == TopScores(remaining, AbsentScores(mask, maxScores, b))
    {
      if Bit(mask, b) {
        assert AbsentScores(mask, maxScores, b + 1) == AbsentScores(mask, maxScores, b);
        continue;
      }
      assert AbsentScores(mask, maxScores, b + 1) == AbsentScores(mask, maxScores, b) + [maxScores[b]];
      TopScoresStep(remaining, AbsentScores(mask, maxScores, b), maxScores[b]);
      TopScoresDescending(remaining, AbsentScores(mask, maxScores, b));
      ShiftScoreIn(top, remaining, maxScores[b]);
    }
    best := SumNat(top[..remaining]);
  }

  lemma ElementInAbsent(mask: nat, maxScores: seq<nat>, n: nat, b: nat)
    requires n <= |maxScores| && b < n && !Bit(mask, b)
    ensures maxScores[b] in AbsentScores(mask, maxScores, n)
    decreases n
  {
    if b < n - 1 {
      ElementInAbsent(mask, maxScores, n - 1, b);
    }
  }

  lemma {:induction false} AbsentOnly(mask: nat, maxScores: seq<nat>, n: nat, x: nat)
    requires n <= |maxScores|
    ensures x in AbsentScores(mask, maxScores, n) ==> exists b :: 0 <= b < n && !Bit(mask, b) && maxScores[b] == x
  {
    if n > 0 {
      AbsentOnly(mask, maxScores, n - 1, x);
    }
  }

  // ---------------------------------------------------------------------
  // The per-mask DP cache

  /**
   * The DP values of one partial mask, indexed by `score - minScore`
   * (`None` is the engine's NaN "not computed" marker), the indices
   * written since the last clear, and the smallest score written with a
   * "continue" decision.
   */
  class MaskCache {
    var dp: seq<Option<real>>
    var touched: seq<nat>
    const minScore: nat
    /** The largest score the mask can reach; the cache has one entry per score in between. */
    ghost const maxScore: nat
    const bestCaseRemaining: nat
    var cutOff: Option<nat>
    /** The scores written with decision "continue" since the last clear. */
    ghost var accepted: set<nat>
    /** The mask whose states this cache holds. */
    ghost const mask: nat

    ghost predicate Valid()
      reads this
    {
      && minScore <= maxScore
      && |dp| == maxScore - minScore + 1
      && (forall k :: 0 <= k < |touched| ==> touched[k] < |dp|)
      && (forall k :: 0 <= k < |dp| ==> (dp[k].Some? <==> k in touched))
      && (touched == [] ==> accepted == {})
      && (cutOff.None? <==> accepted == {})
      && (cutOff.Some? ==> cutOff.value in accepted && forall x :: x in accepted ==> cutOff.value <= x)
    }

    /** `MaskCache::new`: every entry unset, nothing touched, no cut-off. */
    constructor (minScore: nat, maxScore: nat, bestCaseRemaining: nat, ghost mask: nat)
      requires minScore <= maxScore
      ensures this.minScore == minScore && this.maxScore == maxScore
      ensures this.bestCaseRemaining == bestCaseRemaining && this.mask == mask
      ensures |dp| == maxScore - minScore + 1 && forall k :: 0 <= k < |dp| ==> dp[k].None?
      ensures touched == [] && cutOff.None? && Valid()
    {
      this.minScore := minScore;
      this.maxScore := maxScore;
      this.bestCaseRemaining := bestCaseRemaining;
      this.mask := mask;
      dp := seq(maxScore - minScore + 1, _ => None);
      touched := [];
      cutOff := None;
      accepted := {};
    }

    /** `get_decision`: continue exactly at scores reaching the cut-off; unknown without one. */
    function GetDecision(score: nat): (r: Option<bool>)
      reads this
      ensures r.None? <==> cutOff.None?
      ensures Valid() && r == Some(true) ==> exists x :: x in accepted && x <= score
      ensures Valid() && r == Some(false) ==> forall x :: x in accepted ==> score < x
    {
      if cutOff.None? then None else Some(score >= cutOff.value)
    }

    /** The decision is monotone: a score at least a continuing score continues too. */
    lemma DecisionMonotone(low: nat, high: nat)
      requires low <= high && GetDecision(low) == Some(true)
      ensures GetDecision(high) == Some(true)
    {
    }

    /** `dp`: the stored value for `score`, `None` while unset. */
    function Dp(score: nat): (r: Option<real>)
      requires Valid() && minScore <= score <= maxScore
      reads this
      ensures r.Some? <==> score - minScore in touched
    {
      dp[score - minScore]
    }

    /** `set_cache`: store a value, record the index on its first write, and lower the cut-off on "continue". */
    method SetCache(score: nat, value: real, decision: bool)
      requires Valid() && minScore <= score <= maxScore
      modifies this
      ensures Valid()
      ensures dp == old(dp)[score - minScore := Some(value)]
      ensures touched == if old(dp[score - minScore]).None? then old(touched) + [score - minScore] else old(touched)
      ensures accepted == if decision then old(accepted) + {score} else old(accepted)
      ensures cutOff == if !decision then old(cutOff)
        else if old(cutOff).Some? && old(cutOff).value < score then old(cutOff) else Some(score)
    {
      var index := score - minScore;
      if dp[index].None? {
        touched := touched + [index];
      }
      dp := dp[index := Some(value)];
      if decision {
        cutOff := Some(if cutOff.Some? && cutOff.value < score then cutOff.value else score);
        accepted := accepted + {score};
      }
    }

    /** `clear_touched`: unset the touched entries, forget them and drop the cut-off. */
    method ClearTouched()
      requires Valid()
      modifies this
      ensures Valid()
      ensures |dp| == |old(dp)| && forall k :: 0 <= k < |dp| ==> dp[k].None?
      ensures touched == [] && cutOff.None? && accepted == {}
    {
      ghost var before := dp;
      for i := 0 to |touched|
        invariant touched == old(touched)
        invariant |dp| == |before|
        invariant forall k :: 0 <= k < |dp| ==> dp[k] == if k in touched[..i] then None else before[k]
      {
        PrefixStep(touched, i);
        dp := dp[touched[i] := None];
      }
      assert touched[..|touched|] == touched;
      touched := [];
      cutOff := None;
      accepted := {};
    }
  }
}
