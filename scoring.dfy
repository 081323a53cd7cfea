/**
 * Scorers: weight validation, the sum of the five largest weights, the
 * fixed and the linear per-buff score, the score of a whole echo, the
 * histogram-to-PMF aggregation and the blending of histograms by group.
 */
module Scoring {
  import opened Base
  import opened Data

  const SCORE_MULTIPLIER: real := 100.0
  /** `u16::MAX as f64 / SCORE_MULTIPLIER`. */
  const FIXED_SCORER_SCORE_LIMIT: real := 655.35

  datatype ScorerError =
    | NegativeWeight(index: nat, weight: F64)
    | AllWeightsZero
    | FixedScorerWeightsTooLarge(sum: real, limit: real)

  // ---------------------------------------------------------------------
  // Weight validation

  /** The first invalid weight at or after `from`, if any. */
  function FirstInvalidWeight(weights: seq<F64>, from: nat): (r: Option<nat>)
    decreases |weights| - from
    ensures r.Some? ==> from <= r.value < |weights| && InvalidWeight(weights[r.value])
    ensures r.Some? ==> forall j :: from <= j < r.value ==> !InvalidWeight(weights[j])
    ensures r.None? ==> forall j :: from <= j < |weights| ==> !InvalidWeight(weights[j])
  {
    if from >= |weights| then None
    else if InvalidWeight(weights[from]) then Some(from)
    else FirstInvalidWeight(weights, from + 1)
  }

  predicate AnyPositive(weights: seq<F64>)
  {
    exists i :: 0 <= i < |weights| && weights[i].Greater(0.0)
  }

  /** The outcome of `validate_weights`. */
  function WeightCheck(weights: seq<F64>): Result<(), ScorerError>
  {
    match FirstInvalidWeight(weights, 0)
    case Some(i) => Err(NegativeWeight(i, weights[i]))
    case None => if AnyPositive(weights) then Ok(()) else Err(AllWeightsZero)
  }

  /** The three outcomes of the validation, each exactly characterised. */
  lemma WeightCheckOutcomes(weights: seq<F64>, i: nat, w: F64)
    ensures WeightCheck(weights) == Err(NegativeWeight(i, w)) <==>
      i < |weights| && w == weights[i] && InvalidWeight(w) &&
      (forall j :: 0 <= j < i ==> !InvalidWeight(weights[j]))
    ensures WeightCheck(weights) == Err(AllWeightsZero) <==>
      (forall j :: 0 <= j < |weights| ==> !InvalidWeight(weights[j])) && !AnyPositive(weights)
    ensures WeightCheck(weights) == Ok(()) <==>
      (forall j :: 0 <= j < |weights| ==> !InvalidWeight(weights[j])) && AnyPositive(weights)
  {
    var first := FirstInvalidWeight(weights, 0);
    if first.Some? && first.value != i && i < |weights| && InvalidWeight(weights[i]) {
      assert first.value < i;
    }
  }

  /** `validate_weights`: one pass, returning at the first invalid weight. */
  method ValidateWeights(weights: seq<F64>) returns (r: Result<(), ScorerError>)
    requires |weights| == NUM_BUFFS
    ensures r == WeightCheck(weights)
  {
    var anyPositive := false;
    for index := 0 to |weights|
      invariant FirstInvalidWeight(weights, 0) == FirstInvalidWeight(weights, index)
      invariant anyPositive <==> exists i :: 0 <= i < index && weights[i].Greater(0.0)
    {
      var weight := weights[index];
      if !weight.IsFinite() || weight.Less(0.0) {
        return Err(NegativeWeight(index, weight));
      }
      if weight.Greater(0.0) {
        anyPositive := true;
      }
    }
    if !anyPositive {
      return Err(AllWeightsZero);
    }
    return Ok(());
  }

  /** The weights of a validated array, as reals. */
  function WeightValues(weights: seq<F64>): (r: seq<real>)
    requires forall j :: 0 <= j < |weights| ==> weights[j].Finite?
    ensures |r| == |weights|
    ensures forall j :: 0 <= j < |weights| ==> r[j] == weights[j].val
  {
    seq(|weights|, j requires 0 <= j < |weights| => weights[j].val)
  }

  // ---------------------------------------------------------------------
  // The five largest weights

  predicate Descending(s: seq<real>)
  {
    forall i, j :: 0 <= i < j < |s| ==> s[i] >= s[j]
  }

  function Zeros(n: nat): (r: seq<real>)
    ensures |r| == n && forall i :: 0 <= i < n ==> r[i] == 0.0
  {
    seq(n, _ => 0.0)
  }

  /** Inserts `w` into a descending sequence after every element at least `w`. */
  function InsertDesc(s: seq<real>, w: real): (r: seq<real>)
    ensures |r| == |s| + 1
  {
    if s == [] then [w]
    else if w > s[0] then [w] + s
    else [s[0]] + InsertDesc(s[1..], w)
  }

  lemma {:induction false} InsertDescPermutes(s: seq<real>, w: real)
    ensures multiset(InsertDesc(s, w)) == multiset(s) + multiset{w}
  {
    if s != [] && w <= s[0] {
      InsertDescPermutes(s[1..], w);
      assert s == [s[0]] + s[1..];
    }
  }

  lemma {:induction false} InsertDescKeepsOrder(s: seq<real>, w: real)
    requires Descending(s)
    ensures Descending(InsertDesc(s, w))
  {
    if s != [] && w <= s[0] {
      InsertDescKeepsOrder(s[1..], w);
      InsertDescPermutes(s[1..], w);
      var r := InsertDesc(s, w);
      forall k | 1 <= k < |r|
        ensures r[0] >= r[k]
      {
        assert r[k] in multiset(InsertDesc(s[1..], w));
        assert r[k] in multiset(s[1..]) || r[k] == w;
        if r[k] != w {
          var m :| 0 <= m < |s[1..]| && s[1..][m] == r[k];
          assert s[1 + m] == r[k];
        }
      }
    }
  }

  /** A descending permutation of `s`: insertion sort, left to right. */
  function SortDesc(s: seq<real>): (r: seq<real>)
    ensures |r| == |s|
  {
    if s == [] then [] else InsertDesc(SortDesc(s[..|s| - 1]), s[|s| - 1])
  }

  lemma {:induction false} SortDescSorts(s: seq<real>)
    ensures multiset(SortDesc(s)) == multiset(s)
    ensures Descending(SortDesc(s))
  {
    if s != [] {
      SortDescSorts(s[..|s| - 1]);
      InsertDescPermutes(SortDesc(s[..|s| - 1]), s[|s| - 1]);
      InsertDescKeepsOrder(SortDesc(s[..|s| - 1]), s[|s| - 1]);
      assert s == s[..|s| - 1] + [s[|s| - 1]];
    }
  }

  /**
   * The five largest among the weights and five zeros (the initial
   * buffer), in descending order.
   */
  function TopWeights(weights: seq<real>): (r: seq<real>)
    ensures |r| == NUM_ECHO_SLOTS
  {
    SortDesc(Zeros(NUM_ECHO_SLOTS) + weights)[..NUM_ECHO_SLOTS]
  }

  function TopWeightsSum(weights: seq<real>): real
  {
    Sum(TopWeights(weights))
  }

  lemma TopWeightsDescending(weights: seq<real>)
    ensures Descending(TopWeights(weights))
  {
    SortDescSorts(Zeros(NUM_ECHO_SLOTS) + weights);
  }

  /** Where the shifting loop stops is where `InsertDesc` puts `w`. */
  lemma {:induction false} InsertDescAt(s: seq<real>, w: real, j: nat)
    requires Descending(s) && j <= |s|
    requires j == 0 || s[j - 1] >= w
    requires forall k :: j <= k < |s| ==> w > s[k]
    ensures InsertDesc(s, w) == s[..j] + [w] + s[j..]
  {
    if s != [] && j > 0 {
      assert s[0] >= s[j - 1];
      InsertDescAt(s[1..], w, j - 1);
      assert s[1..][..j - 1] == s[1..j];
      assert s[..j] == [s[0]] + s[1..j];
    }
  }

  /** The first `n` entries after an insertion depend only on the first `n` entries before it. */
  lemma {:induction false} InsertTruncate(s: seq<real>, w: real, n: nat)
    requires n <= |s|
    ensures InsertDesc(s, w)[..n] == InsertDesc(s[..n], w)[..n]
  {
    if n > 0 && w <= s[0] {
      InsertTruncate(s[1..], w, n - 1);
      assert s[..n][1..] == s[1..][..n - 1];
    }
  }

  /** One step of the buffer: the top five of a longer prefix. */
  lemma TopWeightsStep(weights: seq<real>, i: nat)
    requires i < |weights|
    ensures TopWeights(weights[..i + 1]) ==
      InsertDesc(TopWeights(weights[..i]), weights[i])[..NUM_ECHO_SLOTS]
  {
    var z := Zeros(NUM_ECHO_SLOTS);
    var longer := z + weights[..i + 1];
    assert longer[..|longer| - 1] == z + weights[..i];
    assert longer[|longer| - 1] == weights[i];
    InsertTruncate(SortDesc(z + weights[..i]), weights[i], NUM_ECHO_SLOTS);
  }

  lemma TopWeightsStart()
    ensures TopWeights([]) == Zeros(NUM_ECHO_SLOTS)
  {
    var z := Zeros(NUM_ECHO_SLOTS);
    assert z + [] == z;
    SortDescSorts(z);
    forall i | 0 <= i < NUM_ECHO_SLOTS
      ensures SortDesc(z)[i] == 0.0
    {
      assert SortDesc(z)[i] in multiset(z);
    }
  }

  /**
   * `top_weights_sum`: a five-entry buffer kept in descending order, into
   * which each weight above the smallest entry is shifted in.
   */
  method ComputeTopWeightsSum(weights: seq<real>) returns (sum: real)
    requires |weights| == NUM_BUFFS
    ensures sum == TopWeightsSum(weights)
  {
    var top := new real[NUM_ECHO_SLOTS](_ => 0.0);
    TopWeightsStart();
    assert weights[..0] == [];
    for i := 0 to |weights|
      invariant top[..] == TopWeights(weights[..i])
    {
      TopWeightsStep(weights, i);
      TopWeightsDescending(weights[..i]);
      ShiftIn(top, weights[i]);
    }
    assert weights[..|weights|] == weights;
    sum := Sum(top[..]);
  }

  /** One pass of the outer loop: skip a weight not above the smallest entry, else shift it in. */
  method ShiftIn(top: array<real>, weight: real)
    requires top.Length == NUM_ECHO_SLOTS && Descending(top[..])
    modifies top
    ensures top[..] == InsertDesc(old(top[..]), weight)[..NUM_ECHO_SLOTS]
  {
    ghost var before := top[..];
    if weight <= top[NUM_ECHO_SLOTS - 1] {
      InsertDescAt(before, weight, NUM_ECHO_SLOTS);
      assert (before + [weight])[..NUM_ECHO_SLOTS] == before;
      return;
    }
    var j := ShiftWeightsDown(top, weight);
    top[j] := weight;
    InsertDescAt(before, weight, j);
    ShiftedInsertDesc(before, top[..], weight, j);
  }

  /** The shifting loop: move every entry below `weight` one place down, from the end of the buffer. */
  method ShiftWeightsDown(top: array<real>, weight: real) returns (j: nat)
    requires top.Length == NUM_ECHO_SLOTS && weight > top[NUM_ECHO_SLOTS - 1]
    modifies top
    ensures j < NUM_ECHO_SLOTS && (j == 0 || old(top[j - 1]) >= weight)
    ensures forall k :: 0 <= k < j ==> top[k] == old(top[k])
    ensures forall k :: j < k < NUM_ECHO_SLOTS ==> top[k] == old(top[k - 1])
    ensures forall k :: j <= k < NUM_ECHO_SLOTS ==> weight > old(top[k])
  {
    ghost var before := top[..];
    j := NUM_ECHO_SLOTS - 1;
    while j > 0 && weight > top[j - 1]
      invariant j < NUM_ECHO_SLOTS
      invariant forall k :: 0 <= k < j ==> top[k] == before[k]
      invariant forall k :: j < k < NUM_ECHO_SLOTS ==> top[k] == before[k - 1]
      invariant forall k :: j <= k < NUM_ECHO_SLOTS ==> weight > before[k]
      decreases j
    {
      top[j] := top[j - 1];
      j := j - 1;
    }
  }

  /** Entries before `j` kept, `weight` at `j`, and the rest moved one place down: the insertion, cut to length. */
  lemma ShiftedInsertDesc(before: seq<real>, after: seq<real>, weight: real, j: nat)
    requires |after| == |before| && j < |before|
    requires forall k :: 0 <= k < j ==> after[k] == before[k]
    requires after[j] == weight
    requires forall k :: j < k < |after| ==> after[k] == before[k - 1]
    ensures after == (before[..j] + [weight] + before[j..])[..|before|]
  {
    var inserted := before[..j] + [weight] + before[j..];
    forall k | 0 <= k < |after|
      ensures after[k] == inserted[k]
    {
      if k > j {
        assert inserted[k] == before[j..][k - j - 1];
      }
    }
  }

  /**
   * The buffer holds the five largest of the weights and the five initial
   * zeros: it is descending, drawn from them, and nothing left out exceeds
   * its smallest entry.
   */
  lemma TopWeightsAreLargest(weights: seq<real>)
    ensures Descending(TopWeights(weights))
    ensures multiset(TopWeights(weights)) <= multiset(Zeros(NUM_ECHO_SLOTS) + weights)
    ensures forall x :: x in multiset(Zeros(NUM_ECHO_SLOTS) + weights) - multiset(TopWeights(weights)) ==>
      x <= TopWeights(weights)[NUM_ECHO_SLOTS - 1]
  {
    var all := SortDesc(Zeros(NUM_ECHO_SLOTS) + weights);
    SortDescSorts(Zeros(NUM_ECHO_SLOTS) + weights);
    var top := all[..NUM_ECHO_SLOTS];
    var rest := all[NUM_ECHO_SLOTS..];
    assert all == top + rest;
    assert multiset(all) == multiset(top) + multiset(rest);
    forall x | x in multiset(Zeros(NUM_ECHO_SLOTS) + weights) - multiset(top)
      ensures x <= top[NUM_ECHO_SLOTS - 1]
    {
      assert x in multiset(rest);
      var k :| 0 <= k < |rest| && rest[k] == x;
      assert all[NUM_ECHO_SLOTS + k] == x;
    }
  }

  lemma {:induction false} SumAtLeastEntry(s: seq<real>, k: nat)
    requires forall i :: 0 <= i < |s| ==> s[i] >= 0.0
    requires k < |s|
    ensures Sum(s) >= s[k]
  {
    if k < |s| - 1 {
      SumAtLeastEntry(s[..|s| - 1], k);
    } else {
      SumNonNegative(s[..|s| - 1]);
    }
  }

  /** With non-negative weights of which one is positive, the top-five sum is positive. */
  lemma TopWeightsSumPositive(weights: seq<real>)
    requires forall i :: 0 <= i < |weights| ==> weights[i] >= 0.0
    ensures TopWeightsSum(weights) >= 0.0
    ensures (exists i :: 0 <= i < |weights| && weights[i] > 0.0) ==> TopWeightsSum(weights) > 0.0
  {
    var z := Zeros(NUM_ECHO_SLOTS);
    var all := SortDesc(z + weights);
    SortDescSorts(z + weights);
    var top := TopWeights(weights);
    forall i | 0 <= i < |top|
      ensures top[i] >= 0.0
    {
      assert all[i] in multiset(z + weights);
      var k :| 0 <= k < |z + weights| && (z + weights)[k] == all[i];
    }
    SumNonNegative(top);
    if exists i :: 0 <= i < |weights| && weights[i] > 0.0 {
      var i :| 0 <= i < |weights| && weights[i] > 0.0;
      assert (z + weights)[NUM_ECHO_SLOTS + i] == weights[i];
      assert weights[i] in multiset(all);
      var k :| 0 <= k < |all| && all[k] == weights[i];
      assert all[0] >= all[k];
      SumAtLeastEntry(top, 0);
    }
  }

  // ---------------------------------------------------------------------
  // Scorers

  /**
   * `FixedScorer` scores a buff by its weight alone; `LinearScorer` scales
   * the weight by the buff's value relative to that buff type's largest
   * value, normalised by the top-five weight sum.
   */
  datatype Scorer =
    | FixedScorer(weights: seq<real>)
    | LinearScorer(weights: seq<real>, topWeightsSum: real)

  /** What the constructors guarantee about a scorer and the score functions rely on. */
  predicate ValidScorer(s: Scorer)
  {
    && |s.weights| == NUM_BUFFS
    && (forall i :: 0 <= i < NUM_BUFFS ==> s.weights[i] >= 0.0)
    && (s.LinearScorer? ==> s.topWeightsSum > 0.0)
  }

  /** Validated weights are finite, non-negative, and one of them is positive. */
  lemma ValidatedWeights(weights: seq<F64>)
    requires WeightCheck(weights).Ok?
    ensures forall j :: 0 <= j < |weights| ==> weights[j].Finite? && weights[j].val >= 0.0
    ensures exists j :: 0 <= j < |weights| && WeightValues(weights)[j] > 0.0
  {
    WeightCheckOutcomes(weights, 0, NaN);
    var j :| 0 <= j < |weights| && weights[j].Greater(0.0);
    assert WeightValues(weights)[j] > 0.0;
  }

  /** `FixedScorer::new`: validation, then the top-five sum must fit a `u16` score. */
  method NewFixedScorer(weights: seq<F64>) returns (r: Result<Scorer, ScorerError>)
    requires |weights| == NUM_BUFFS
    ensures WeightCheck(weights).Err? ==> r == Err(WeightCheck(weights).error)
    ensures WeightCheck(weights).Ok? && TopWeightsSum(WeightValues(weights)) > FIXED_SCORER_SCORE_LIMIT ==>
      r == Err(FixedScorerWeightsTooLarge(TopWeightsSum(WeightValues(weights)), FIXED_SCORER_SCORE_LIMIT))
    ensures r.Ok? <==> WeightCheck(weights).Ok? && TopWeightsSum(WeightValues(weights)) <= FIXED_SCORER_SCORE_LIMIT
    ensures r.Ok? ==> r.value == FixedScorer(WeightValues(weights)) && ValidScorer(r.value)
  {
    var check := ValidateWeights(weights);
    if check.Err? {
      return Err(check.error);
    }
    ValidatedWeights(weights);
    var values := WeightValues(weights);
    var topSum := ComputeTopWeightsSum(values);
    if topSum > FIXED_SCORER_SCORE_LIMIT {
      return Err(FixedScorerWeightsTooLarge(topSum, FIXED_SCORER_SCORE_LIMIT));
    }
    return Ok(FixedScorer(values));
  }

  /** `LinearScorer::new`: validation, then the top-five sum is stored. */
  method NewLinearScorer(weights: seq<F64>) returns (r: Result<Scorer, ScorerError>)
    requires |weights| == NUM_BUFFS
    ensures WeightCheck(weights).Err? ==> r == Err(WeightCheck(weights).error)
    ensures WeightCheck(weights).Ok? ==>
      r == Ok(LinearScorer(WeightValues(weights), TopWeightsSum(WeightValues(weights))))
    ensures r.Ok? ==> ValidScorer(r.value)
  {
    var check := ValidateWeights(weights);
    if check.Err? {
      return Err(check.error);
    }
    ValidatedWeights(weights);
    var values := WeightValues(weights);
    var topSum := ComputeTopWeightsSum(values);
    TopWeightsSumPositive(values);
    return Ok(LinearScorer(values, topSum));
  }

  lemma BuffMaxValuesPositive()
    ensures |BUFF_MAX_VALUES| == NUM_BUFFS
    ensures forall i :: 0 <= i < NUM_BUFFS ==> BUFF_MAX_VALUES[i] > 0.0
  {
  }

  /** A full score scaled by a ratio in [0, 1]. */
  function Scaled(full: real, ratio: real): (r: real)
    requires full >= 0.0 && 0.0 <= ratio <= 1.0
    ensures 0.0 <= r <= full
  {
    full * ratio
  }

  lemma DivideMonotone(a: real, b: real, m: real)
    requires 0.0 < a <= b && m > 0.0
    ensures 0.0 < a / m <= b / m
  {
  }

  /** The linear scorer's share of the full score: the value over the buff type's largest, capped at 1. */
  function LinearRatio(buffValue: real, buffMaxValue: real): (r: real)
    requires buffValue > 0.0 && buffMaxValue > 0.0
    ensures 0.0 < r <= 1.0
  {
    if buffValue > buffMaxValue then 1.0 else buffValue / buffMaxValue
  }

  lemma LinearRatioMonotone(v1: real, v2: real, m: real)
    requires 0.0 < v1 <= v2 && m > 0.0
    ensures LinearRatio(v1, m) <= LinearRatio(v2, m)
  {
    if v2 <= m {
      DivideMonotone(v1, v2, m);
    }
  }

  /** The linear score of a buff at or above its largest value. */
  function FullLinearScore(s: Scorer, buffIndex: nat): (r: real)
    requires ValidScorer(s) && s.LinearScorer? && buffIndex < NUM_BUFFS
    ensures r >= 0.0
  {
    SCORE_MULTIPLIER * s.weights[buffIndex] / s.topWeightsSum
  }

  /** `buff_score` of either scorer. */
  function BuffScore(s: Scorer, buffIndex: nat, buffValue: real): (r: real)
    requires ValidScorer(s) && buffIndex < NUM_BUFFS
    ensures r >= 0.0
    ensures s.LinearScorer? ==> r <= FullLinearScore(s, buffIndex)
  {
    match s
    case FixedScorer(weights) => weights[buffIndex]
    case LinearScorer(_, _) =>
      if buffValue <= 0.0 then 0.0
      else
        BuffMaxValuesPositive();
        var ratio := LinearRatio(buffValue, BUFF_MAX_VALUES[buffIndex]);
        Scaled(FullLinearScore(s, buffIndex), ratio)
  }

  /** A fixed scorer ignores the value; a linear one is 0 for non-positive values and full at the cap. */
  lemma BuffScoreShape(s: Scorer, buffIndex: nat, buffValue: real)
    requires ValidScorer(s) && buffIndex < NUM_BUFFS
    ensures s.FixedScorer? ==> BuffScore(s, buffIndex, buffValue) == s.weights[buffIndex]
    ensures s.LinearScorer? && buffValue <= 0.0 ==> BuffScore(s, buffIndex, buffValue) == 0.0
    ensures s.LinearScorer? && buffValue >= BUFF_MAX_VALUES[buffIndex] ==>
      BuffScore(s, buffIndex, buffValue) == FullLinearScore(s, buffIndex)
  {
    BuffMaxValuesPositive();
    if s.LinearScorer? && buffValue >= BUFF_MAX_VALUES[buffIndex] && buffValue == BUFF_MAX_VALUES[buffIndex] {
      assert LinearRatio(buffValue, BUFF_MAX_VALUES[buffIndex]) == 1.0;
    }
  }

  lemma ScaleMonotone(full: real, x: real, y: real)
    requires full >= 0.0 && 0.0 <= x <= y <= 1.0
    ensures Scaled(full, x) <= Scaled(full, y)
  {
  }

  /** A linear score grows with the value. */
  lemma LinearBuffScoreMonotone(s: Scorer, buffIndex: nat, v1: real, v2: real)
    requires ValidScorer(s) && s.LinearScorer? && buffIndex < NUM_BUFFS && v1 <= v2
    ensures BuffScore(s, buffIndex, v1) <= BuffScore(s, buffIndex, v2)
  {
    BuffMaxValuesPositive();
    if 0.0 < v1 {
      var m := BUFF_MAX_VALUES[buffIndex];
      LinearRatioMonotone(v1, v2, m);
      ScaleMonotone(FullLinearScore(s, buffIndex), LinearRatio(v1, m), LinearRatio(v2, m));
    }
  }

  // ---------------------------------------------------------------------
  // The score of an echo: `(buff index, value)` pairs

  /** What one `(buff index, value)` entry adds to the echo score. */
  function EntryScore(s: Scorer, entry: (nat, real)): (r: real)
    requires ValidScorer(s)
    ensures r >= 0.0
  {
    if entry.0 < NUM_BUFFS then BuffScore(s, entry.0, entry.1) else 0.0
  }

  /** The sum of `buff_score` over the entries whose index names a buff type. */
  function EchoTotal(s: Scorer, echo: seq<(nat, real)>): real
    requires ValidScorer(s)
  {
    if echo == [] then 0.0
    else EchoTotal(s, echo[..|echo| - 1]) + EntryScore(s, echo[|echo| - 1])
  }

  lemma EchoTotalAppend(s: Scorer, echo: seq<(nat, real)>, entry: (nat, real))
    requires ValidScorer(s)
    ensures EchoTotal(s, echo + [entry]) == EchoTotal(s, echo) + EntryScore(s, entry)
  {
    assert (echo + [entry])[..|echo|] == echo;
  }

  /** `echo_score`: the loop skips indices outside `0..13`. */
  method EchoScore(s: Scorer, echo: seq<(nat, real)>) returns (sum: real)
    requires ValidScorer(s)
    ensures sum == EchoTotal(s, echo)
  {
    sum := 0.0;
    for k := 0 to |echo|
      invariant sum == EchoTotal(s, echo[..k])
    {
      PrefixStep(echo, k);
      EchoTotalAppend(s, echo[..k], echo[k]);
      var (buffIndex, buffValue) := echo[k];
      if !(buffIndex < NUM_BUFFS) {
        continue;
      }
      sum := sum + BuffScore(s, buffIndex, buffValue);
    }
    assert echo[..|echo|] == echo;
  }

  function InRangeEntries(echo: seq<(nat, real)>): (r: seq<(nat, real)>)
    ensures forall k :: 0 <= k < |r| ==> r[k].0 < NUM_BUFFS
  {
    if echo == [] then []
    else InRangeEntries(echo[..|echo| - 1]) + (if echo[|echo| - 1].0 < NUM_BUFFS then [echo[|echo| - 1]] else [])
  }

  lemma {:induction false} EchoTotalNonNegative(s: Scorer, echo: seq<(nat, real)>)
    requires ValidScorer(s)
    ensures EchoTotal(s, echo) >= 0.0
  {
    if echo != [] {
      EchoTotalNonNegative(s, echo[..|echo| - 1]);
    }
  }

  /** Out-of-range entries contribute nothing; in-range ones are all counted. */
  lemma {:induction false} EchoTotalSkipsOutOfRange(s: Scorer, echo: seq<(nat, real)>)
    requires ValidScorer(s)
    ensures EchoTotal(s, echo) == EchoTotal(s, InRangeEntries(echo))
  {
    if echo != [] {
      var prefix := echo[..|echo| - 1];
      var last := echo[|echo| - 1];
      EchoTotalSkipsOutOfRange(s, prefix);
      if last.0 < NUM_BUFFS {
        EchoTotalAppend(s, InRangeEntries(prefix), last);
      } else {
        assert InRangeEntries(echo) == InRangeEntries(prefix);
      }
    }
  }

  // ---------------------------------------------------------------------
  // Score PMFs: an ordered map from integer score bucket to probability mass

  /** The ordered map the aggregation fills, as its ascending entry list. */
  type Pmf = seq<(nat, real)>

  predicate KeysAscending(m: Pmf)
  {
    forall i, j :: 0 <= i < j < |m| ==> m[i].0 < m[j].0
  }

  /** `*map.entry(key).or_insert(0.0) += mass`. */
  function AddMass(m: Pmf, key: nat, mass: real): (r: Pmf)
    ensures |r| > 0
  {
    if m == [] then [(key, mass)]
    else if key < m[0].0 then [(key, mass)] + m
    else if key == m[0].0 then [(key, m[0].1 + mass)] + m[1..]
    else [m[0]] + AddMass(m[1..], key, mass)
  }

  /** The mass stored under `key`, 0 when absent. */
  function MassAt(m: Pmf, key: nat): real
  {
    if m == [] then 0.0 else (if m[0].0 == key then m[0].1 else 0.0) + MassAt(m[1..], key)
  }

  function TotalMass(m: Pmf): real
  {
    if m == [] then 0.0 else m[0].1 + TotalMass(m[1..])
  }

  predicate KeysAbove(m: Pmf, lo: nat)
  {
    forall i :: 0 <= i < |m| ==> m[i].0 > lo
  }

  lemma {:induction false} AddMassKeysAbove(m: Pmf, key: nat, mass: real, lo: nat)
    requires KeysAbove(m, lo) && key > lo
    ensures KeysAbove(AddMass(m, key, mass), lo)
  {
    if m != [] && key > m[0].0 {
      AddMassKeysAbove(m[1..], key, mass, lo);
    }
  }

  lemma {:induction false} AddMassKeepsOrder(m: Pmf, key: nat, mass: real)
    requires KeysAscending(m)
    ensures KeysAscending(AddMass(m, key, mass))
  {
    if m != [] && key > m[0].0 {
      AddMassKeepsOrder(m[1..], key, mass);
      AddMassKeysAbove(m[1..], key, mass, m[0].0);
    }
  }

  lemma {:induction false} AddMassAt(m: Pmf, key: nat, mass: real, k: nat)
    requires KeysAscending(m)
    ensures MassAt(AddMass(m, key, mass), k) == MassAt(m, k) + (if k == key then mass else 0.0)
  {
    if m != [] {
      if key < m[0].0 {
        assert AddMass(m, key, mass)[1..] == m;
      } else if key == m[0].0 {
        assert AddMass(m, key, mass)[1..] == m[1..];
      } else {
        AddMassAt(m[1..], key, mass, k);
        assert AddMass(m, key, mass)[1..] == AddMass(m[1..], key, mass);
      }
    }
  }

  lemma {:induction false} AddMassTotal(m: Pmf, key: nat, mass: real)
    ensures TotalMass(AddMass(m, key, mass)) == TotalMass(m) + mass
  {
    if m != [] {
      if key < m[0].0 {
        assert AddMass(m, key, mass)[1..] == m;
      } else if key == m[0].0 {
        assert AddMass(m, key, mass)[1..] == m[1..];
      } else {
        AddMassTotal(m[1..], key, mass);
        assert AddMass(m, key, mass)[1..] == AddMass(m[1..], key, mass);
      }
    }
  }

  /** Accumulating `(key, mass)` contributions in order into an empty map. */
  function Accumulate(contributions: seq<(nat, real)>): Pmf
  {
    if contributions == [] then []
    else
      var last := contributions[|contributions| - 1];
      AddMass(Accumulate(contributions[..|contributions| - 1]), last.0, last.1)
  }

  lemma AccumulateStep(contributions: seq<(nat, real)>, k: nat)
    requires k < |contributions|
    ensures Accumulate(contributions[..k + 1])
      == AddMass(Accumulate(contributions[..k]), contributions[k].0, contributions[k].1)
  {
    assert contributions[..k + 1][..k] == contributions[..k];
  }

  /** The mass of the contributions with key `key`. */
  function KeyShare(contributions: seq<(nat, real)>, key: nat): real
  {
    if contributions == [] then 0.0
    else
      var last := contributions[|contributions| - 1];
      KeyShare(contributions[..|contributions| - 1], key) + (if last.0 == key then last.1 else 0.0)
  }

  function SumMasses(contributions: seq<(nat, real)>): real
  {
    if contributions == [] then 0.0
    else SumMasses(contributions[..|contributions| - 1]) + contributions[|contributions| - 1].1
  }

  /**
   * The accumulated map has strictly ascending keys, holds at each key the
   * sum of that key's contributions, and holds their total mass overall.
   */
  lemma {:induction false} AccumulateFacts(contributions: seq<(nat, real)>, key: nat)
    ensures KeysAscending(Accumulate(contributions))
    ensures MassAt(Accumulate(contributions), key) == KeyShare(contributions, key)
    ensures TotalMass(Accumulate(contributions)) == SumMasses(contributions)
  {
    if contributions != [] {
      var prefix := contributions[..|contributions| - 1];
      var last := contributions[|contributions| - 1];
      AccumulateFacts(prefix, key);
      AddMassKeepsOrder(Accumulate(prefix), last.0, last.1);
      AddMassAt(Accumulate(prefix), last.0, last.1, key);
      AddMassTotal(Accumulate(prefix), last.0, last.1);
    }
  }

  /** `histogram.iter().map(|&(_, c)| c as f64).sum()`. */
  function TotalCount(h: Histogram): real
  {
    if h == [] then 0.0 else TotalCount(h[..|h| - 1]) + h[|h| - 1].1 as real
  }

  /** The score bucket of a raw value: `(score * SCORE_MULTIPLIER).round() as u16`. */
  function Bucket(s: Scorer, buffIndex: nat, rawValue: nat): (r: nat)
    requires ValidScorer(s) && buffIndex < NUM_BUFFS
    ensures r <= U16_MAX
  {
    ScaledU16(BuffScore(s, buffIndex, rawValue as real), SCORE_MULTIPLIER)
  }

  /** Each histogram entry's contribution: its bucket and its share `count / total` of the counts. */
  function Contributions(s: Scorer, buffIndex: nat, h: Histogram, total: real): (r: seq<(nat, real)>)
    requires ValidScorer(s) && buffIndex < NUM_BUFFS && total != 0.0
    ensures |r| == |h|
    ensures forall j :: 0 <= j < |h| ==> r[j] == (Bucket(s, buffIndex, h[j].0), h[j].1 as real / total)
  {
    seq(|h|, j requires 0 <= j < |h| => (Bucket(s, buffIndex, h[j].0), h[j].1 as real / total))
  }

  /** The PMF built for buff type `buffIndex` from histogram `h`. */
  function ScorePmf(s: Scorer, buffIndex: nat, h: Histogram): Pmf
    requires ValidScorer(s) && buffIndex < NUM_BUFFS && (h == [] || TotalCount(h) != 0.0)
  {
    if h == [] then [] else Accumulate(Contributions(s, buffIndex, h, TotalCount(h)))
  }

  /** The inner loop of `build_score_pmfs_from_histograms`: one histogram into the ordered map. */
  method BuildPmf(s: Scorer, buffIndex: nat, h: Histogram) returns (pmf: Pmf)
    requires ValidScorer(s) && buffIndex < NUM_BUFFS && (h == [] || TotalCount(h) != 0.0)
    ensures pmf == ScorePmf(s, buffIndex, h)
  {
    var totalCounts := TotalCount(h);
    if h == [] {
      return [];
    }
    ghost var contributions := Contributions(s, buffIndex, h, totalCounts);
    var buckets: Pmf := [];
    for k := 0 to |h|
      invariant buckets == Accumulate(contributions[..k])
    {
      var (buffValue, count) := h[k];
      var scoreFloat := BuffScore(s, buffIndex, buffValue as real);
      var bucketInt := SaturateU16(Round(scoreFloat * SCORE_MULTIPLIER));
      assert bucketInt == Bucket(s, buffIndex, buffValue);
      assert contributions[k] == (bucketInt, count as real / totalCounts);
      AccumulateStep(contributions, k);
      buckets := AddMass(buckets, bucketInt, count as real / totalCounts);
    }
    assert contributions[..|h|] == contributions;
    pmf := buckets;
  }

  /** `build_score_pmfs_from_histograms`: one PMF per histogram, in order. */
  method BuildScorePmfsFromHistograms(s: Scorer, histograms: seq<Histogram>) returns (scorePmfs: seq<Pmf>)
    requires ValidScorer(s) && |histograms| <= NUM_BUFFS
    requires forall b :: 0 <= b < |histograms| ==> histograms[b] == [] || TotalCount(histograms[b]) != 0.0
    ensures |scorePmfs| == |histograms|
    ensures forall b :: 0 <= b < |histograms| ==> scorePmfs[b] == ScorePmf(s, b, histograms[b])
  {
    scorePmfs := [];
    for buffIndex := 0 to |histograms|
      invariant |scorePmfs| == buffIndex
      invariant forall b :: 0 <= b < buffIndex ==> scorePmfs[b] == ScorePmf(s, b, histograms[b])
    {
      var pmf := BuildPmf(s, buffIndex, histograms[buffIndex]);
      scorePmfs := scorePmfs + [pmf];
    }
  }

  /** The shares `count / total` add up to the counts' sum over `total`. */
  lemma {:induction false} SharesSum(s: Scorer, buffIndex: nat, h: Histogram, total: real)
    requires ValidScorer(s) && buffIndex < NUM_BUFFS && total != 0.0
    ensures SumMasses(Contributions(s, buffIndex, h, total)) == TotalCount(h) / total
  {
    if h != [] {
      var c := Contributions(s, buffIndex, h, total);
      var prefix := h[..|h| - 1];
      SharesSum(s, buffIndex, prefix, total);
      assert c[..|c| - 1] == Contributions(s, buffIndex, prefix, total);
      DivideSum(TotalCount(prefix), h[|h| - 1].1 as real, total);
    }
  }

  lemma DivideSum(a: real, b: real, total: real)
    requires total != 0.0
    ensures a / total + b / total == (a + b) / total
  {
  }

  lemma DivideSelf(total: real)
    requires total != 0.0
    ensures total / total == 1.0
  {
  }

  /**
   * Each built PMF has strictly ascending keys, the mass at a key is the
   * share of the counts whose entries land in that bucket, and the masses
   * add up to 1.
   */
  lemma ScorePmfFacts(s: Scorer, buffIndex: nat, h: Histogram, key: nat)
    requires ValidScorer(s) && buffIndex < NUM_BUFFS && h != [] && TotalCount(h) != 0.0
    ensures KeysAscending(ScorePmf(s, buffIndex, h))
    ensures MassAt(ScorePmf(s, buffIndex, h), key) == KeyShare(Contributions(s, buffIndex, h, TotalCount(h)), key)
    ensures TotalMass(ScorePmf(s, buffIndex, h)) == 1.0
  {
    var c := Contributions(s, buffIndex, h, TotalCount(h));
    AccumulateFacts(c, key);
    SharesSum(s, buffIndex, h, TotalCount(h));
    DivideSelf(TotalCount(h));
  }

  /** A histogram with positive counts has a positive total. */
  lemma {:induction false} TotalCountPositive(h: Histogram)
    requires forall j :: 0 <= j < |h| ==> h[j].1 > 0
    ensures h != [] ==> TotalCount(h) > 0.0
    ensures TotalCount(h) >= 0.0
  {
    if h != [] {
      TotalCountPositive(h[..|h| - 1]);
    }
  }

  // ---------------------------------------------------------------------
  // Blending: the histograms of a group are pooled position by position

  function CountAt(h: Histogram, j: nat): nat
  {
    if j < |h| then h[j].1 else 0
  }

  /** The sum over the first `n` group members of their original count at position `j`. */
  function PooledCount(group: seq<nat>, n: nat, j: nat): nat
    requires n <= |group| && forall g :: 0 <= g < |group| ==> group[g] < NUM_BUFFS
  {
    if n == 0 then 0 else PooledCount(group, n - 1, j) + CountAt(BUFF_TYPES[group[n - 1]].histogram, j)
  }

  /** `h` with every count replaced by the group's pooled count at that position. */
  function Pooled(h: Histogram, group: seq<nat>): (r: Histogram)
    requires forall g :: 0 <= g < |group| ==> group[g] < NUM_BUFFS
    ensures |r| == |h|
    ensures forall j :: 0 <= j < |h| ==> r[j] == (h[j].0, PooledCount(group, |group|, j))
  {
    seq(|h|, j requires 0 <= j < |h| => (h[j].0, PooledCount(group, |group|, j)))
  }

  lemma PooledTwice(h: Histogram, group: seq<nat>)
    requires forall g :: 0 <= g < |group| ==> group[g] < NUM_BUFFS
    ensures Pooled(Pooled(h, group), group) == Pooled(h, group)
  {
  }

  /** A blend group: non-empty, over buff types, all with histograms of one length. */
  predicate BlendableGroup(group: seq<nat>)
  {
    |group| > 0 &&
    (forall g :: 0 <= g < |group| ==> group[g] < NUM_BUFFS) &&
    forall g :: 0 <= g < |group| ==> |BUFF_TYPES[group[g]].histogram| == |BUFF_TYPES[group[0]].histogram|
  }

  /** The first half of `blend_group`: sum the original counts of the group position by position. */
  method PoolCounts(group: seq<nat>) returns (counts: seq<nat>)
    requires BlendableGroup(group)
    ensures |counts| == |BUFF_TYPES[group[0]].histogram|
    ensures forall j :: 0 <= j < |counts| ==> counts[j] == PooledCount(group, |group|, j)
  {
    var len := |BUFF_TYPES[group[0]].histogram|;
    var pooled := new nat[len](_ => 0);
    for gi := 0 to |group|
      invariant forall j :: 0 <= j < len ==> pooled[j] == PooledCount(group, gi, j)
    {
      var h := BUFF_TYPES[group[gi]].histogram;
      for vi := 0 to |h|
        invariant forall j :: 0 <= j < len ==> pooled[j] == PooledCount(group, gi, j) + (if j < vi then h[j].1 else 0)
      {
        pooled[vi] := pooled[vi] + h[vi].1;
      }
    }
    counts := pooled[..];
  }

  /** The second half of `blend_group` for one member: overwrite its counts, keeping its values. */
  method WriteCounts(blended: array<Histogram>, b: nat, counts: seq<nat>)
    requires b < blended.Length && |blended[b]| <= |counts|
    modifies blended
    ensures |blended[b]| == |old(blended[b])|
    ensures forall j :: 0 <= j < |blended[b]| ==> blended[b][j] == (old(blended[b])[j].0, counts[j])
    ensures forall c :: 0 <= c < blended.Length && c != b ==> blended[c] == old(blended[c])
  {
    ghost var current := blended[b];
    for vi := 0 to |blended[b]|
      invariant |blended[b]| == |current|
      invariant forall j :: 0 <= j < |current| ==>
        blended[b][j] == if j < vi then (current[j].0, counts[j]) else current[j]
      invariant forall c :: 0 <= c < blended.Length && c != b ==> blended[c] == old(blended[c])
    {
      blended[b] := blended[b][vi := (blended[b][vi].0, counts[vi])];
    }
  }

  /** `blend_group`: pool the original counts of the group, then write them into every member. */
  method BlendGroup(blended: array<Histogram>, group: seq<nat>)
    requires BlendableGroup(group)
    requires forall g :: 0 <= g < |group| ==>
      group[g] < blended.Length && |blended[group[g]]| <= |BUFF_TYPES[group[0]].histogram|
    modifies blended
    ensures forall b :: 0 <= b < blended.Length ==>
      blended[b] == if b in group then Pooled(old(blended[b]), group) else old(blended[b])
  {
    ghost var original := blended[..];
    var counts := PoolCounts(group);
    for gi := 0 to |group|
      invariant forall b :: 0 <= b < blended.Length ==>
        blended[b] == if b in group[..gi] then Pooled(original[b], group) else original[b]
    {
      BlendMember(blended, group, gi, counts, original);
    }
    assert group[..|group|] == group;
  }

  /** One pass of `blend_group`'s writing loop: member `gi` of the group gets the pooled counts. */
  method BlendMember(blended: array<Histogram>, group: seq<nat>, gi: nat, counts: seq<nat>, ghost original: seq<Histogram>)
    requires BlendableGroup(group) && gi < |group| && |original| == blended.Length
    requires forall g :: 0 <= g < |group| ==>
      group[g] < blended.Length && |original[group[g]]| <= |BUFF_TYPES[group[0]].histogram|
    requires |counts| == |BUFF_TYPES[group[0]].histogram|
    requires forall j :: 0 <= j < |counts| ==> counts[j] == PooledCount(group, |group|, j)
    requires forall b :: 0 <= b < blended.Length ==>
      blended[b] == if b in group[..gi] then Pooled(original[b], group) else original[b]
    modifies blended
    ensures forall b :: 0 <= b < blended.Length ==>
      blended[b] == if b in group[..gi + 1] then Pooled(original[b], group) else original[b]
  {
    var b := group[gi];
    ghost var current := blended[b];
    WriteCounts(blended, b, counts);
    assert blended[b] == Pooled(current, group);
    PooledTwice(original[b], group);
    PrefixStep(group, gi);
  }

  /** Histogram `h` of buff type `b` after the groups `crit` and then `main` are blended. */
  function BlendedWith(h: Histogram, b: nat, crit: seq<nat>, main: seq<nat>): Histogram
    requires forall g :: 0 <= g < |crit| ==> crit[g] < NUM_BUFFS
    requires forall g :: 0 <= g < |main| ==> main[g] < NUM_BUFFS
  {
    if b in crit then Pooled(h, crit) else if b in main then Pooled(h, main) else h
  }

  /** The histogram of buff type `b` after both blend groups are blended. */
  function BlendedHistogram(b: nat): Histogram
    requires b < NUM_BUFFS
  {
    BlendGroupsBlendable();
    BlendedWith(BUFF_TYPES[b].histogram, b, BLEND_GROUP_CRIT, BLEND_GROUP_MAIN)
  }

  /** Both blend groups are blendable, over 8-entry histograms, and disjoint. */
  lemma BlendGroupsBlendable()
    ensures BlendableGroup(BLEND_GROUP_CRIT) && BlendableGroup(BLEND_GROUP_MAIN)
    ensures |BUFF_TYPES[BLEND_GROUP_CRIT[0]].histogram| == 8
    ensures |BUFF_TYPES[BLEND_GROUP_MAIN[0]].histogram| == 8
    ensures forall g :: 0 <= g < |BLEND_GROUP_MAIN| ==> BLEND_GROUP_MAIN[g] !in BLEND_GROUP_CRIT
  {
    BlendGroupsHaveEightEntries();
  }

  /** Two disjoint groups blended one after the other. */
  method BlendGroups(storage: array<Histogram>, crit: seq<nat>, main: seq<nat>)
    requires BlendableGroup(crit) && BlendableGroup(main)
    requires forall g :: 0 <= g < |main| ==> main[g] !in crit
    requires forall g :: 0 <= g < |crit| ==>
      crit[g] < storage.Length && |storage[crit[g]]| <= |BUFF_TYPES[crit[0]].histogram|
    requires forall g :: 0 <= g < |main| ==>
      main[g] < storage.Length && |storage[main[g]]| <= |BUFF_TYPES[main[0]].histogram|
    modifies storage
    ensures forall b :: 0 <= b < storage.Length ==> storage[b] == BlendedWith(old(storage[b]), b, crit, main)
  {
    BlendGroup(storage, crit);
    ghost var afterCrit := storage[..];
    BlendGroup(storage, main);
    forall b | 0 <= b < storage.Length
      ensures storage[b] == BlendedWith(old(storage[b]), b, crit, main)
    {
      if b in crit {
        assert b !in main;
        assert afterCrit[b] == Pooled(old(storage[b]), crit);
      } else {
        assert afterCrit[b] == old(storage[b]);
      }
    }
  }

  /** `build_blended_histograms`: copy the data histograms, then blend the two groups. */
  method BuildBlendedHistograms() returns (blended: seq<Histogram>)
    ensures |blended| == NUM_BUFFS
    ensures forall b :: 0 <= b < NUM_BUFFS ==> blended[b] == BlendedHistogram(b)
  {
    BlendGroupsBlendable();
    var storage := new Histogram[NUM_BUFFS](i requires 0 <= i < NUM_BUFFS => BUFF_TYPES[i].histogram);
    BlendGroups(storage, BLEND_GROUP_CRIT, BLEND_GROUP_MAIN);
    blended := storage[..];
  }

  /** Pooling includes each member's own count. */
  lemma {:induction false} PooledAtLeastOwn(group: seq<nat>, n: nat, g: nat, j: nat)
    requires n <= |group| && g < n && forall k :: 0 <= k < |group| ==> group[k] < NUM_BUFFS
    ensures PooledCount(group, n, j) >= CountAt(BUFF_TYPES[group[g]].histogram, j)
  {
    if g < n - 1 {
      PooledAtLeastOwn(group, n - 1, g, j);
    }
  }

  /** Pooling a member's own histogram keeps it well formed. */
  lemma PooledWellFormed(group: seq<nat>, g: nat)
    requires g < |group| && forall k :: 0 <= k < |group| ==> group[k] < NUM_BUFFS
    requires WellFormedHistogram(BUFF_TYPES[group[g]].histogram)
    ensures WellFormedHistogram(Pooled(BUFF_TYPES[group[g]].histogram, group))
  {
    var h := BUFF_TYPES[group[g]].histogram;
    forall j | 0 <= j < |h|
      ensures Pooled(h, group)[j].1 > 0
    {
      PooledAtLeastOwn(group, |group|, g, j);
    }
  }

  /** Blending keeps raw values and lengths, and every count stays positive. */
  lemma BlendedWellFormed(b: nat)
    requires b < NUM_BUFFS
    ensures |BlendedHistogram(b)| == |BUFF_TYPES[b].histogram|
    ensures forall j :: 0 <= j < |BlendedHistogram(b)| ==> BlendedHistogram(b)[j].0 == BUFF_TYPES[b].histogram[j].0
    ensures WellFormedHistogram(BUFF_TYPES[b].histogram) && WellFormedHistogram(BlendedHistogram(b))
  {
    BuffMaxIsLargestValue(b);
    if b in BLEND_GROUP_CRIT {
      PooledWellFormed(BLEND_GROUP_CRIT, b);
    } else if b in BLEND_GROUP_MAIN {
      var g :| 0 <= g < |BLEND_GROUP_MAIN| && BLEND_GROUP_MAIN[g] == b;
      PooledWellFormed(BLEND_GROUP_MAIN, g);
    }
  }

  /** The histogram `build_score_pmfs` uses for buff type `b`. */
  function SourceHistogram(b: nat, blendData: bool): (h: Histogram)
    requires b < NUM_BUFFS
    ensures WellFormedHistogram(h) && TotalCount(h) > 0.0
  {
    BlendedWellFormed(b);
    var h := if blendData then BlendedHistogram(b) else BUFF_TYPES[b].histogram;
    TotalCountPositive(h);
    h
  }

  /** `build_score_pmfs`: the PMFs of the blended or of the original histograms. */
  method BuildScorePmfs(s: Scorer, blendData: bool) returns (scorePmfs: seq<Pmf>)
    requires ValidScorer(s)
    ensures |scorePmfs| == NUM_BUFFS
    ensures forall b :: 0 <= b < NUM_BUFFS ==> scorePmfs[b] == ScorePmf(s, b, SourceHistogram(b, blendData))
  {
    var histograms: seq<Histogram>;
    if blendData {
      histograms := BuildBlendedHistograms();
    } else {
      histograms := seq(NUM_BUFFS, i requires 0 <= i < NUM_BUFFS => BUFF_TYPES[i].histogram);
    }
    assert forall b :: 0 <= b < NUM_BUFFS ==> histograms[b] == SourceHistogram(b, blendData);
    scorePmfs := BuildScorePmfsFromHistograms(s, histograms);
  }
}
