// The desktop host's validators: buff names to indices, weight maps to
// weight arrays, selections to masks, selections to scores, and the
// normalisation of a requested number of lock choices.

module HostValidators {
  import opened Base
  import opened Bits
  import opened Data
  import opened Mask
  import opened Scoring
  import opened RerollPolicy

  const MAX_SELECTED_TYPES: nat := 5

  /** The largest `u32`, where the host's score sum saturates. */
  const U32_MAX: nat := 4294967295

  /** The host's own names of the 13 buff types, in index order. */
  const BUFF_NAMES: seq<string> := [
    "Crit_Rate",
    "Crit_Damage",
    "Attack",
    "Defence",
    "HP",
    "Attack_Flat",
    "Defence_Flat",
    "HP_Flat",
    "ER",
    "Basic_Attack_Damage",
    "Heavy_Attack_Damage",
    "Skill_Damage",
    "Ult_Damage"
  ]

  const DEFAULT_BUFF_WEIGHTS: seq<real> :=
    [100.0, 100.0, 70.0, 0.0, 0.0, 30.0, 0.0, 0.0, 10.0, 0.0, 0.0, 0.0, 0.0]

  /** `default_reroll_top_k`. */
  const DEFAULT_REROLL_TOP_K: nat := 3

  /** The host's error messages, one constructor per message. */
  datatype HostError =
    | UnknownBuffInWeights(name: string)
    | InvalidWeightValue(name: string, value: F64)
    | TooManySelected(count: nat)
    | UnknownBuffInSelection(name: string)
    | DuplicateBuff(name: string)
    | WrongSelectionSize(count: nat)
    | SelectionsNotUnique
    | LengthMismatch
    | InvalidLinearScorer(cause: ScorerError)
    | InvalidFixedScorer(cause: ScorerError)
    | UnsupportedScorerType(scorerType: string)
    | ScoreExceedsU16

  lemma BuffNamesDistinct()
    ensures |BUFF_NAMES| == NUM_BUFFS && |DEFAULT_BUFF_WEIGHTS| == NUM_BUFFS
    ensures forall i, j :: 0 <= i < j < NUM_BUFFS ==> BUFF_NAMES[i] != BUFF_NAMES[j]
  {
  }

  // ---------------------------------------------------------------------
  // buff_index

  /** The first position at or after `from` that holds `name`. */
  function PositionFrom(name: string, from: nat): (r: Option<nat>)
    requires from <= NUM_BUFFS
    ensures r.None? ==> forall j :: from <= j < NUM_BUFFS ==> BUFF_NAMES[j] != name
    ensures r.Some? ==> from <= r.value < NUM_BUFFS && BUFF_NAMES[r.value] == name
    ensures r.Some? ==> forall j :: from <= j < r.value ==> BUFF_NAMES[j] != name
    decreases NUM_BUFFS - from
  {
    if from == NUM_BUFFS then None
    else if BUFF_NAMES[from] == name then Some(from)
    else PositionFrom(name, from + 1)
  }

  /** `buff_index`: the position of the name in the host's list, if any. */
  function BuffIndex(name: string): (r: Option<nat>)
    ensures r.None? ==> forall j :: 0 <= j < NUM_BUFFS ==> BUFF_NAMES[j] != name
    ensures r.Some? ==> r.value < NUM_BUFFS && BUFF_NAMES[r.value] == name
    ensures r.Some? ==> forall j :: 0 <= j < r.value ==> BUFF_NAMES[j] != name
  {
    PositionFrom(name, 0)
  }

  /** Every host name maps back to its own index. */
  lemma BuffIndexOfName(i: nat)
    requires i < NUM_BUFFS
    ensures BuffIndex(BUFF_NAMES[i]) == Some(i)
  {
    BuffNamesDistinct();
  }

  // ---------------------------------------------------------------------
  // build_weight_array

  predicate BadWeight(entry: (string, F64))
  {
    BuffIndex(entry.0).None? || !entry.1.Finite? || entry.1.val < 0.0
  }

  function WeightError(entry: (string, F64)): HostError
  {
    if BuffIndex(entry.0).None? then UnknownBuffInWeights(entry.0) else InvalidWeightValue(entry.0, entry.1)
  }

  /** Entry `k` is the first entry the weight loop rejects. */
  predicate FirstBadWeight(input: seq<(string, F64)>, k: nat)
  {
    k < |input| && BadWeight(input[k]) && forall j :: 0 <= j < k ==> !BadWeight(input[j])
  }

  /** The weight of buff `i` after the entries of `input` have been applied to the defaults in order. */
  function WeightFor(input: seq<(string, F64)>, i: nat): real
    requires i < NUM_BUFFS
  {
    if input == [] then DEFAULT_BUFF_WEIGHTS[i]
    else
      var last := input[|input| - 1];
      if BuffIndex(last.0) == Some(i) && last.1.Finite? then last.1.val
      else WeightFor(input[..|input| - 1], i)
  }

  /**
   * `build_weight_array`. The map is given as the sequence of its entries in
   * iteration order: the first rejected entry decides the error.
   */
  method BuildWeightArray(input: seq<(string, F64)>) returns (r: Result<seq<real>, HostError>)
    ensures r.Ok? <==> forall k :: 0 <= k < |input| ==> !BadWeight(input[k])
    ensures r.Err? ==> exists k: nat :: FirstBadWeight(input, k) && r.error == WeightError(input[k])
    ensures r.Ok? ==> |r.value| == NUM_BUFFS && forall i :: 0 <= i < NUM_BUFFS ==> r.value[i] == WeightFor(input, i)
  {
    BuffNamesDistinct();
    var weights := new real[NUM_BUFFS](i requires 0 <= i < NUM_BUFFS => DEFAULT_BUFF_WEIGHTS[i]);
    for k := 0 to |input|
      invariant forall j :: 0 <= j < k ==> !BadWeight(input[j])
      invariant WeightsAfter(weights[..], input, k)
    {
      var fault := ApplyWeight(weights, input, k);
      if fault.Some? {
        return Err(fault.value);
      }
    }
    assert input[..|input|] == input;
    return Ok(weights[..]);
  }

  /** One pass of the `build_weight_array` loop: reject entry `k` or store its weight. */
  method ApplyWeight(weights: array<real>, input: seq<(string, F64)>, k: nat) returns (fault: Option<HostError>)
    requires k < |input| && WeightsAfter(weights[..], input, k)
    requires forall j :: 0 <= j < k ==> !BadWeight(input[j])
    modifies weights
    ensures fault.Some? ==> FirstBadWeight(input, k) && fault.value == WeightError(input[k])
    ensures fault.None? ==> !BadWeight(input[k]) && WeightsAfter(weights[..], input, k + 1)
  {
    var name := input[k].0;
    var value := input[k].1;
    var index := BuffIndex(name);
    if index.None? {
      return Some(UnknownBuffInWeights(name));
    }
    if !value.Finite? || value.val < 0.0 {
      return Some(InvalidWeightValue(name, value));
    }
    ghost var before := weights[..];
    weights[index.value] := value.val;
    WeightStep(before, weights[..], input, k, index.value);
    return None;
  }

  /** The weight vector holds the weights after the first `k` entries. */
  ghost predicate WeightsAfter(weights: seq<real>, input: seq<(string, F64)>, k: nat)
    requires k <= |input|
  {
    |weights| == NUM_BUFFS && forall i :: 0 <= i < NUM_BUFFS ==> weights[i] == WeightFor(input[..k], i)
  }

  lemma WeightStep(before: seq<real>, after: seq<real>, input: seq<(string, F64)>, k: nat, b: nat)
    requires k < |input| && WeightsAfter(before, input, k)
    requires BuffIndex(input[k].0) == Some(b) && input[k].1.Finite?
    requires after == before[b := input[k].1.val]
    ensures WeightsAfter(after, input, k + 1)
  {
    PrefixStep(input, k);
    var prefix := input[..k + 1];
    assert prefix[..k] == input[..k] && prefix[k] == input[k];
  }

  /** A buff no entry names keeps its default weight. */
  lemma {:induction false} WeightForDefault(input: seq<(string, F64)>, i: nat)
    requires i < NUM_BUFFS
    requires forall k :: 0 <= k < |input| ==> input[k].0 != BUFF_NAMES[i]
    ensures WeightFor(input, i) == DEFAULT_BUFF_WEIGHTS[i]
  {
    if input != [] {
      var last := input[|input| - 1];
      assert last.0 != BUFF_NAMES[i];
      WeightForDefault(input[..|input| - 1], i);
    }
  }

  /** With distinct keys, as in a map, a named buff takes the value of its entry. */
  lemma {:induction false} WeightForNamed(input: seq<(string, F64)>, k: nat, i: nat)
    requires i < NUM_BUFFS && k < |input|
    requires forall a, b :: 0 <= a < b < |input| ==> input[a].0 != input[b].0
    requires input[k].0 == BUFF_NAMES[i] && input[k].1.Finite?
    ensures WeightFor(input, i) == input[k].1.val
  {
    BuffIndexOfName(i);
    var n := |input| - 1;
    if k < n {
      assert input[n].0 != BUFF_NAMES[i];
      var prefix := input[..n];
      assert prefix[k] == input[k];
      WeightForNamed(prefix, k, i);
    }
  }

  /** Accepted entries leave every weight finite and non-negative. */
  lemma {:induction false} WeightForNonNegative(input: seq<(string, F64)>, i: nat)
    requires i < NUM_BUFFS
    requires forall k :: 0 <= k < |input| ==> !BadWeight(input[k])
    ensures WeightFor(input, i) >= 0.0
  {
    if input != [] {
      assert !BadWeight(input[|input| - 1]);
      WeightForNonNegative(input[..|input| - 1], i);
    }
  }

  // ---------------------------------------------------------------------
  // build_mask and build_full_mask

  /** Name `k` is unknown or repeats an earlier name. */
  predicate SelectionFault(names: seq<string>, k: nat)
    requires k < |names|
  {
    BuffIndex(names[k]).None? || names[k] in names[..k]
  }

  predicate ProperSelection(names: seq<string>)
  {
    forall k :: 0 <= k < |names| ==> !SelectionFault(names, k)
  }

  predicate FirstSelectionFault(names: seq<string>, k: nat)
  {
    k < |names| && SelectionFault(names, k) && forall j :: 0 <= j < k ==> !SelectionFault(names, j)
  }

  function SelectionError(names: seq<string>, k: nat): HostError
    requires k < |names|
  {
    if BuffIndex(names[k]).None? then UnknownBuffInSelection(names[k]) else DuplicateBuff(names[k])
  }

  /** `mask` has exactly the bits of the named buffs, one per name. */
  ghost predicate SelectionMask(mask: nat, names: seq<string>)
  {
    && mask <= MASK_ALL
    && Popcount(mask) == |names|
    && forall i: nat :: Bit(mask, i) <==> (i < NUM_BUFFS && BUFF_NAMES[i] in names)
  }

  /** `build_mask`. */
  method BuildMask(names: seq<string>) returns (r: Result<nat, HostError>)
    ensures |names| > MAX_SELECTED_TYPES ==> r == Err(TooManySelected(|names|))
    ensures |names| <= MAX_SELECTED_TYPES ==> (r.Ok? <==> ProperSelection(names))
    ensures |names| <= MAX_SELECTED_TYPES && r.Err? ==>
      exists k: nat :: FirstSelectionFault(names, k) && r.error == SelectionError(names, k)
    ensures r.Ok? ==> SelectionMask(r.value, names)
  {
    if |names| > MAX_SELECTED_TYPES {
      return Err(TooManySelected(|names|));
    }
    var bits := new u8[NUM_BUFFS](_ => 0);
    ghost var m: nat := 0;
    ZeroHasNoBits2();
    for k := 0 to |names|
      invariant forall j :: 0 <= j < k ==> !SelectionFault(names, j)
      invariant Marked(bits[..], names, k)
      invariant MaskMarks(m, names, k) && Popcount(m) == k
    {
      var fault;
      fault, m := MarkName(bits, names, k, m);
      if fault.Some? {
        return Err(fault.value);
      }
    }
    assert names[..|names|] == names;
    var mask := BitsToMask(bits[..]);
    BitsDetermine(mask, m);
    return Ok(mask);
  }

  /** Entry `i` of the 0/1 vector is 1 exactly when buff `i` is among the first `k` names. */
  ghost predicate Marked(bits: seq<u8>, names: seq<string>, k: nat)
    requires k <= |names|
  {
    && |bits| == NUM_BUFFS
    && forall i :: 0 <= i < NUM_BUFFS ==> (bits[i] == 0 || bits[i] == 1) && (bits[i] == 1 <==> BUFF_NAMES[i] in names[..k])
  }

  /** Bit `i` of `m` is set exactly when buff `i` is among the first `k` names. */
  ghost predicate MaskMarks(m: nat, names: seq<string>, k: nat)
    requires k <= |names|
  {
    forall i: nat :: Bit(m, i) <==> (i < NUM_BUFFS && BUFF_NAMES[i] in names[..k])
  }

  /** One pass of the `build_mask` loop: reject name `k` or set its bit. */
  method MarkName(bits: array<u8>, names: seq<string>, k: nat, ghost m: nat) returns (fault: Option<HostError>, ghost m': nat)
    requires k < |names| && (forall j :: 0 <= j < k ==> !SelectionFault(names, j))
    requires Marked(bits[..], names, k) && MaskMarks(m, names, k) && Popcount(m) == k
    modifies bits
    ensures fault.Some? ==> FirstSelectionFault(names, k) && fault.value == SelectionError(names, k)
    ensures fault.None? ==> !SelectionFault(names, k) && forall j :: 0 <= j < k + 1 ==> !SelectionFault(names, j)
    ensures fault.None? ==> Marked(bits[..], names, k + 1) && MaskMarks(m', names, k + 1) && Popcount(m') == k + 1
  {
    var name := names[k];
    var index := BuffIndex(name);
    if index.None? {
      assert FirstSelectionFault(names, k);
      return Some(UnknownBuffInSelection(name)), m;
    }
    if bits[index.value] == 1 {
      MarkedRepeat(bits[..], names, k, index.value);
      return Some(DuplicateBuff(name)), m;
    }
    ghost var before := bits[..];
    bits[index.value] := 1;
    MarkStep(before, bits[..], names, k, index.value);
    m' := m + Pow2(index.value);
    MaskStep(m, m', names, k, index.value);
    fault := None;
  }

  lemma MarkedRepeat(bits: seq<u8>, names: seq<string>, k: nat, b: nat)
    requires k < |names| && Marked(bits, names, k) && (forall j :: 0 <= j < k ==> !SelectionFault(names, j))
    requires BuffIndex(names[k]) == Some(b) && bits[b] == 1
    ensures FirstSelectionFault(names, k)
  {
  }

  lemma MaskStep(m: nat, m': nat, names: seq<string>, k: nat, b: nat)
    requires k < |names| && MaskMarks(m, names, k) && BuffIndex(names[k]) == Some(b)
    requires BUFF_NAMES[b] !in names[..k] && m' == m + Pow2(b)
    ensures Popcount(m') == Popcount(m) + 1
    ensures MaskMarks(m', names, k + 1)
  {
    assert !Bit(m, b);
    PopcountStep(m, m', b);
    MaskMarksStep(m, m', names, k, b);
  }

  lemma PopcountStep(m: nat, m': nat, b: nat)
    requires !Bit(m, b) && m' == m + Pow2(b)
    ensures Popcount(m') == Popcount(m) + 1
    ensures forall i: nat :: Bit(m', i) <==> Bit(m, i) || i == b
    ensures forall i: nat :: Bit(m, i) <==> Bit(m', i) && i != b
  {
    AddBitCount(m, b);
    AddBit(m, b);
  }

  lemma AddBitCount(m: nat, b: nat)
    requires !Bit(m, b)
    ensures Popcount(m + Pow2(b)) == Popcount(m) + 1
  {
    AddBit(m, b);
  }

  lemma MaskMarksStep(m: nat, m': nat, names: seq<string>, k: nat, b: nat)
    requires k < |names| && MaskMarks(m, names, k) && BuffIndex(names[k]) == Some(b)
    requires forall i: nat :: Bit(m', i) <==> Bit(m, i) || i == b
    ensures MaskMarks(m', names, k + 1)
  {
    PrefixStep(names, k);
    assert forall x :: x in names[..k + 1] <==> x in names[..k] || x == names[k];
    forall i: nat ensures Bit(m', i) <==> (i < NUM_BUFFS && BUFF_NAMES[i] in names[..k + 1]) {
      assert Bit(m, i) <==> (i < NUM_BUFFS && BUFF_NAMES[i] in names[..k]);
      if i < NUM_BUFFS && i != b {
        BuffNamesDistinct();
        assert BUFF_NAMES[i] != names[k];
      }
    }
  }


  lemma MarkStep(before: seq<u8>, after: seq<u8>, names: seq<string>, k: nat, b: nat)
    requires k < |names| && Marked(before, names, k)
    requires BuffIndex(names[k]) == Some(b) && before[b] == 0 && after == before[b := 1]
    ensures !SelectionFault(names, k)
    ensures Marked(after, names, k + 1)
    ensures forall i :: 0 <= i < NUM_BUFFS ==> (BUFF_NAMES[i] in names[..k + 1] <==> BUFF_NAMES[i] in names[..k] || i == b)
  {
    BuffNamesDistinct();
    PrefixStep(names, k);
  }

  /** `build_full_mask`: five distinct known names make a valid full mask. */
  method BuildFullMask(names: seq<string>) returns (r: Result<nat, HostError>)
    ensures |names| != MAX_SELECTED_TYPES ==> r == Err(WrongSelectionSize(|names|))
    ensures r.Ok? <==> |names| == MAX_SELECTED_TYPES && ProperSelection(names)
    ensures |names| == MAX_SELECTED_TYPES && r.Err? ==>
      exists k: nat :: FirstSelectionFault(names, k) && r.error == SelectionError(names, k)
    ensures r.Ok? ==> IsValidExternalFullMask(r.value) && SelectionMask(r.value, names)
  {
    if |names| != MAX_SELECTED_TYPES {
      return Err(WrongSelectionSize(|names|));
    }
    var built := BuildMask(names);
    if built.Err? {
      return Err(built.error);
    }
    var mask := built.value;
    // `build_mask` already sets one bit per name, so this check never rejects.
    if Popcount(mask) != MAX_SELECTED_TYPES {
      return Err(SelectionsNotUnique);
    }
    return Ok(mask);
  }

  // ---------------------------------------------------------------------
  // fixed_score_from_selected

  predicate FirstUnknown(names: seq<string>, k: nat)
  {
    k < |names| && BuffIndex(names[k]).None? && forall j :: 0 <= j < k ==> BuffIndex(names[j]).Some?
  }

  /** The sum of the weights of the known names, name by name. */
  function SelectedWeightTotal(weights: seq<real>, names: seq<string>): real
    requires |weights| == NUM_BUFFS
  {
    if names == [] then 0.0
    else
      var rest := SelectedWeightTotal(weights, names[..|names| - 1]);
      match BuffIndex(names[|names| - 1])
      case None => rest
      case Some(i) => rest + weights[i]
  }

  /** `fixed_score_from_selected`. */
  method FixedScoreFromSelected(weights: seq<real>, names: seq<string>) returns (r: Result<real, HostError>)
    requires |weights| == NUM_BUFFS
    ensures r.Ok? <==> forall k :: 0 <= k < |names| ==> BuffIndex(names[k]).Some?
    ensures r.Err? ==> exists k: nat :: FirstUnknown(names, k) && r.error == UnknownBuffInSelection(names[k])
    ensures r.Ok? ==> r.value == SelectedWeightTotal(weights, names)
  {
    var total := 0.0;
    for k := 0 to |names|
      invariant forall j :: 0 <= j < k ==> BuffIndex(names[j]).Some?
      invariant total == SelectedWeightTotal(weights, names[..k])
    {
      PrefixStep(names, k);
      var index := BuffIndex(names[k]);
      if index.None? {
        assert FirstUnknown(names, k);
        return Err(UnknownBuffInSelection(names[k]));
      }
      total := total + weights[index.value];
    }
    assert names[..|names|] == names;
    return Ok(total);
  }

  /** The `(buff index, value)` entries of a selection; unknown names get the out-of-range index 13. */
  function Entries(names: seq<string>, values: seq<real>): (r: seq<(nat, real)>)
    requires |names| == |values|
    ensures |r| == |names|
  {
    if names == [] then []
    else
      var n := |names| - 1;
      var index := (match BuffIndex(names[n]) case None => NUM_BUFFS case Some(i) => i);
      Entries(names[..n], values[..n]) + [(index, values[n])]
  }

  /** The host's baseline score is the engine's fixed-scorer echo score of the selection. */
  lemma {:induction false} SelectedWeightTotalIsFixedScore(weights: seq<real>, names: seq<string>, values: seq<real>)
    requires ValidScorer(FixedScorer(weights)) && |names| == |values|
    ensures SelectedWeightTotal(weights, names) == EchoTotal(FixedScorer(weights), Entries(names, values))
  {
    if names != [] {
      var n := |names| - 1;
      var e := Entries(names, values);
      SelectedWeightTotalIsFixedScore(weights, names[..n], values[..n]);
      assert e[..n] == Entries(names[..n], values[..n]);
    }
  }

  // ---------------------------------------------------------------------
  // lock_slot_indices_from_mask

  /** The name is a known buff whose bit is set in the lock mask. */
  predicate Locked(lockMask: nat, name: string)
  {
    match BuffIndex(name)
    case None => false
    case Some(b) => Bit(lockMask, b)
  }

  /** `lock_slot_indices_from_mask`: the 1-based slots whose buff the lock mask keeps. */
  method LockSlotIndices(lockMask: nat, names: seq<string>) returns (slots: seq<nat>)
    ensures forall a, b :: 0 <= a < b < |slots| ==> slots[a] < slots[b]
    ensures forall s :: s in slots <==> 1 <= s <= |names| && Locked(lockMask, names[s - 1])
    ensures |slots| == CountLocked(lockMask, names)
  {
    slots := [];
    for k := 0 to |names|
      invariant SlotsUpTo(lockMask, names, k, slots)
    {
      ghost var before := slots;
      var index := BuffIndex(names[k]);
      if index.Some? {
        AndPow2(lockMask, index.value);
        if And(lockMask, Pow2(index.value)) != 0 {
          slots := slots + [k + 1];
        }
      }
      SlotStep(lockMask, names, k, before, slots);
    }
    assert names[..|names|] == names;
  }

  /** What the slot loop has built after the first `k` names. */
  ghost predicate SlotsUpTo(lockMask: nat, names: seq<string>, k: nat, slots: seq<nat>)
    requires k <= |names|
  {
    && (forall a, b :: 0 <= a < b < |slots| ==> slots[a] < slots[b])
    && (forall a :: 0 <= a < |slots| ==> slots[a] <= k)
    && (forall s :: s in slots <==> 1 <= s <= k && Locked(lockMask, names[s - 1]))
    && |slots| == CountLocked(lockMask, names[..k])
  }

  lemma SlotStep(lockMask: nat, names: seq<string>, k: nat, before: seq<nat>, after: seq<nat>)
    requires k < |names| && SlotsUpTo(lockMask, names, k, before)
    requires after == if Locked(lockMask, names[k]) then before + [k + 1] else before
    ensures SlotsUpTo(lockMask, names, k + 1, after)
  {
    PrefixStep(names, k);
    var prefix := names[..k + 1];
    assert prefix[..k] == names[..k] && prefix[k] == names[k];
    assert CountLocked(lockMask, prefix) == CountLocked(lockMask, names[..k]) + (if Locked(lockMask, names[k]) then 1 else 0);
    if Locked(lockMask, names[k]) {
      forall a | 0 <= a < |before| ensures after[a] == before[a] && before[a] < k + 1 {}
    }
  }

  /** How many of the names the lock mask keeps. */
  function CountLocked(lockMask: nat, names: seq<string>): nat
  {
    if names == [] then 0
    else CountLocked(lockMask, names[..|names| - 1]) + (if Locked(lockMask, names[|names| - 1]) then 1 else 0)
  }

  /**
   * For a baseline of distinct known names and a lock mask inside its mask,
   * one slot is listed per locked buff.
   */
  lemma {:induction false} LockedCountIsPopcount(lockMask: nat, names: seq<string>)
    requires ProperSelection(names)
    requires forall i: nat :: Bit(lockMask, i) ==> i < NUM_BUFFS && BUFF_NAMES[i] in names
    ensures CountLocked(lockMask, names) == Popcount(lockMask)
  {
    if names == [] {
      if lockMask != 0 {
        LowestBit(lockMask);
        assert false;
      }
    } else {
      var n := |names| - 1;
      var prefix := names[..n];
      assert !SelectionFault(names, n);
      var b := BuffIndex(names[n]).value;
      ProperPrefix(names);
      if Bit(lockMask, b) {
        RemoveBit(lockMask, b);
        var rest := lockMask - Pow2(b);
        PopcountStep(rest, lockMask, b);
        BitsStayInPrefix(rest, names);
        LockedCountIsPopcount(rest, prefix);
        LockedUnchanged(lockMask, rest, names, b);
      } else {
        BitsStayInPrefix(lockMask, names);
        LockedCountIsPopcount(lockMask, prefix);
      }
    }
  }

  lemma ProperPrefix(names: seq<string>)
    requires names != [] && ProperSelection(names)
    ensures ProperSelection(names[..|names| - 1])
  {
    var prefix := names[..|names| - 1];
    forall k | 0 <= k < |prefix| ensures !SelectionFault(prefix, k) {
      assert !SelectionFault(names, k);
      assert prefix[..k] == names[..k];
    }
  }

  /** Bits other than the last name's stay among the earlier names. */
  lemma BitsStayInPrefix(m: nat, names: seq<string>)
    requires names != [] && BuffIndex(names[|names| - 1]).Some?
    requires !Bit(m, BuffIndex(names[|names| - 1]).value)
    requires forall i: nat :: Bit(m, i) ==> i < NUM_BUFFS && BUFF_NAMES[i] in names
    ensures forall i: nat :: Bit(m, i) ==> i < NUM_BUFFS && BUFF_NAMES[i] in names[..|names| - 1]
  {
    var n := |names| - 1;
    assert names == names[..n] + [names[n]];
    forall i: nat | Bit(m, i) ensures i < NUM_BUFFS && BUFF_NAMES[i] in names[..n] {
      if BUFF_NAMES[i] == names[n] {
        BuffIndexOfName(i);
      }
    }
  }

  /** Clearing the last name's bit does not change what the earlier names lock. */
  lemma {:induction false} LockedUnchanged(lockMask: nat, rest: nat, names: seq<string>, b: nat)
    requires names != [] && ProperSelection(names) && BuffIndex(names[|names| - 1]) == Some(b)
    requires forall i: nat :: Bit(rest, i) <==> Bit(lockMask, i) && i != b
    ensures CountLocked(lockMask, names[..|names| - 1]) == CountLocked(rest, names[..|names| - 1])
  {
    var n := |names| - 1;
    assert !SelectionFault(names, n);
    SameLocks(lockMask, rest, names[..n]);
  }

  lemma {:induction false} SameLocks(m1: nat, m2: nat, names: seq<string>)
    requires forall s :: s in names ==> (Locked(m1, s) <==> Locked(m2, s))
    ensures CountLocked(m1, names) == CountLocked(m2, names)
  {
    if names != [] {
      var n := |names| - 1;
      assert names[n] in names;
      assert forall s :: s in names[..n] ==> s in names;
      SameLocks(m1, m2, names[..n]);
    }
  }

  // ---------------------------------------------------------------------
  // score_from_selected_buffs

  /** `(buff_score * SCORE_MULTIPLIER).round()` for one buff. */
  function PerBuffScore(s: Scorer, index: nat, value: real): (r: nat)
    requires ValidScorer(s) && index < NUM_BUFFS
    ensures (r as real) - 0.5 <= BuffScore(s, index, value) * SCORE_MULTIPLIER <= (r as real) + 0.5
  {
    Round(BuffScore(s, index, value) * SCORE_MULTIPLIER)
  }

  /** The exact sum of the per-buff scores of the known names. */
  function RawScore(s: Scorer, names: seq<string>, values: seq<real>): nat
    requires ValidScorer(s) && |names| == |values|
  {
    if names == [] then 0
    else
      var n := |names| - 1;
      var rest := RawScore(s, names[..n], values[..n]);
      match BuffIndex(names[n])
      case None => rest
      case Some(i) => rest + PerBuffScore(s, i, values[n])
  }

  /** The scorer a session of the given type builds from its weights. */
  function SessionScorer(scorerType: string, weights: seq<F64>): Result<Scorer, HostError>
    requires |weights| == NUM_BUFFS
  {
    var check := WeightCheck(weights);
    if scorerType == "linear" then
      if check.Err? then Err(InvalidLinearScorer(check.error))
      else
        ValidatedWeights(weights);
        var values := WeightValues(weights);
        Ok(LinearScorer(values, TopWeightsSum(values)))
    else if scorerType == "fixed" then
      if check.Err? then Err(InvalidFixedScorer(check.error))
      else
        ValidatedWeights(weights);
        var values := WeightValues(weights);
        if TopWeightsSum(values) > FIXED_SCORER_SCORE_LIMIT then
        Err(InvalidFixedScorer(FixedScorerWeightsTooLarge(TopWeightsSum(values), FIXED_SCORER_SCORE_LIMIT)))
      else Ok(FixedScorer(values))
    else Err(UnsupportedScorerType(scorerType))
  }

  /**
   * `score_from_selected_buffs`: the rounded per-buff scores summed with a
   * saturating `u32`, then narrowed to `u16`.
   */
  method ScoreFromSelectedBuffs(scorerType: string, weights: seq<F64>, names: seq<string>, values: seq<real>)
    returns (r: Result<nat, HostError>)
    requires |weights| == NUM_BUFFS
    ensures |names| != |values| ==> r == Err(LengthMismatch)
    ensures |names| == |values| && SessionScorer(scorerType, weights).Err? ==>
      r == Err(SessionScorer(scorerType, weights).error)
    ensures |names| == |values| && SessionScorer(scorerType, weights).Ok? ==>
      var s := SessionScorer(scorerType, weights).value;
      ValidScorer(s) && r == ScoreOutcome(s, names, values)
  {
    if |names| != |values| {
      return Err(LengthMismatch);
    }
    var scorer: Scorer;
    if scorerType == "linear" {
      var made := NewLinearScorer(weights);
      if made.Err? {
        return Err(InvalidLinearScorer(made.error));
      }
      scorer := made.value;
    } else if scorerType == "fixed" {
      var made := NewFixedScorer(weights);
      if made.Err? {
        return Err(InvalidFixedScorer(made.error));
      }
      scorer := made.value;
    } else {
      return Err(UnsupportedScorerType(scorerType));
    }
    r := SumSelectedScores(scorer, names, values);
  }

  /** The outcome of summing a selection: the first unknown name, or the total if it fits a `u16`. */
  ghost function ScoreOutcome(s: Scorer, names: seq<string>, values: seq<real>): Result<nat, HostError>
    requires ValidScorer(s) && |names| == |values|
  {
    if exists k: nat :: FirstUnknown(names, k) then
      var k: nat :| FirstUnknown(names, k);
      Err(UnknownBuffInSelection(names[k]))
    else if RawScore(s, names, values) > U16_MAX then Err(ScoreExceedsU16)
    else Ok(RawScore(s, names, values))
  }

  lemma FirstUnknownUnique(names: seq<string>, k: nat, j: nat)
    requires FirstUnknown(names, k) && FirstUnknown(names, j)
    ensures k == j
  {
  }

  /** The loop shared by both scorer types. */
  method SumSelectedScores(s: Scorer, names: seq<string>, values: seq<real>) returns (r: Result<nat, HostError>)
    requires ValidScorer(s) && |names| == |values|
    ensures r == ScoreOutcome(s, names, values)
  {
    var sum: nat := 0;
    for k := 0 to |names|
      invariant forall j :: 0 <= j < k ==> BuffIndex(names[j]).Some?
      invariant sum == MinNat(RawScore(s, names[..k], values[..k]), U32_MAX)
    {
      var index := BuffIndex(names[k]);
      if index.None? {
        OutcomeAtUnknown(s, names, values, k);
        return Err(UnknownBuffInSelection(names[k]));
      }
      var perBuff := PerBuffScore(s, index.value, values[k]);
      SaturatingStep(s, names, values, k, sum, perBuff);
      sum := MinNat(sum + MinNat(perBuff, U32_MAX), U32_MAX);
    }
    OutcomeAllKnown(s, names, values, sum);
    if sum > U16_MAX {
      return Err(ScoreExceedsU16);
    }
    return Ok(sum);
  }

  lemma OutcomeAtUnknown(s: Scorer, names: seq<string>, values: seq<real>, k: nat)
    requires ValidScorer(s) && |names| == |values|
    requires k < |names| && BuffIndex(names[k]).None? && forall j :: 0 <= j < k ==> BuffIndex(names[j]).Some?
    ensures ScoreOutcome(s, names, values) == Err(UnknownBuffInSelection(names[k]))
  {
    assert FirstUnknown(names, k);
    forall j: nat | FirstUnknown(names, j) ensures j == k {
      FirstUnknownUnique(names, k, j);
    }
  }

  /** Saturating after every step equals saturating once at the end. */
  lemma SaturatingStep(s: Scorer, names: seq<string>, values: seq<real>, k: nat, sum: nat, perBuff: nat)
    requires ValidScorer(s) && |names| == |values| && k < |names|
    requires BuffIndex(names[k]).Some? && perBuff == PerBuffScore(s, BuffIndex(names[k]).value, values[k])
    requires sum == MinNat(RawScore(s, names[..k], values[..k]), U32_MAX)
    ensures MinNat(sum + MinNat(perBuff, U32_MAX), U32_MAX) == MinNat(RawScore(s, names[..k + 1], values[..k + 1]), U32_MAX)
  {
    PrefixStep(names, k);
    PrefixStep(values, k);
    assert names[..k + 1][..k] == names[..k] && values[..k + 1][..k] == values[..k];
    assert RawScore(s, names[..k + 1], values[..k + 1]) == RawScore(s, names[..k], values[..k]) + perBuff;
  }

  lemma OutcomeAllKnown(s: Scorer, names: seq<string>, values: seq<real>, sum: nat)
    requires ValidScorer(s) && |names| == |values|
    requires forall j :: 0 <= j < |names| ==> BuffIndex(names[j]).Some?
    requires sum == MinNat(RawScore(s, names[..|names|], values[..|values|]), U32_MAX)
    ensures ScoreOutcome(s, names, values) == if sum > U16_MAX then Err(ScoreExceedsU16) else Ok(sum)
  {
    assert names[..|names|] == names && values[..|values|] == values;
    assert !exists k: nat :: FirstUnknown(names, k);
  }

  /** Each rounded per-buff score is within half a point of the exact one. */
  lemma {:induction false} RawScoreNearEchoScore(s: Scorer, names: seq<string>, values: seq<real>)
    requires ValidScorer(s) && |names| == |values|
    ensures (RawScore(s, names, values) as real) - 0.5 * (|names| as real)
      <= EchoTotal(s, Entries(names, values)) * SCORE_MULTIPLIER
      <= (RawScore(s, names, values) as real) + 0.5 * (|names| as real)
  {
    if names != [] {
      var n := |names| - 1;
      var e := Entries(names, values);
      RawScoreNearEchoScore(s, names[..n], values[..n]);
      assert e[..n] == Entries(names[..n], values[..n]);
    }
  }

  // ---------------------------------------------------------------------
  // top_k normalisation

  /** A request for zero choices means the default; larger requests are capped at it. */
  function NormaliseTopK(topK: nat): (r: nat)
    ensures 1 <= r <= DEFAULT_REROLL_TOP_K
    ensures 1 <= topK <= DEFAULT_REROLL_TOP_K ==> r == topK
    ensures topK == 0 || topK > DEFAULT_REROLL_TOP_K ==> r == DEFAULT_REROLL_TOP_K
  {
    if topK == 0 then DEFAULT_REROLL_TOP_K else MinNat(topK, DEFAULT_REROLL_TOP_K)
  }

  /** The host never asks the solver for every choice: at most three are listed. */
  lemma HostListsAtMostThree(topK: nat, n: nat)
    ensures RerollPolicySolver.Keep(NormaliseTopK(topK), n) == MinNat(NormaliseTopK(topK), n)
    ensures RerollPolicySolver.Keep(NormaliseTopK(topK), n) <= DEFAULT_REROLL_TOP_K
  {
  }
}
