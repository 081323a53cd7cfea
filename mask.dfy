/**
 * The mask domain: 13-bit sets of buff types. A partial mask (an echo
 * being upgraded) has at most 4 bits set, a full mask (a finished echo)
 * exactly 5. Each kind is enumerated in ascending order into a dense
 * table with an inverse index table; 0/1 vectors convert to and from masks.
 */
module Mask {
  import opened Bits
  import opened Data

  /** The mask with every buff bit set. */
  const MASK_ALL: nat := 8191
  /** The largest partial mask: bits 9..12. */
  const PARTIAL_MASK_SPACE: nat := 7680
  /** The largest full mask: bits 8..12. */
  const FULL_MASK_SPACE: nat := 7936
  const NUM_PARTIAL_MASKS: nat := 1093
  const NUM_FULL_MASKS: nat := 1287

  /** The constants are the shifted all-ones patterns the engine derives them from. */
  lemma ConstantsAgree()
    ensures MASK_ALL == Pow2(NUM_BUFFS) - 1
    ensures PARTIAL_MASK_SPACE == (Pow2(NUM_ECHO_SLOTS - 1) - 1) * Pow2(NUM_BUFFS - (NUM_ECHO_SLOTS - 1))
    ensures FULL_MASK_SPACE == (Pow2(NUM_ECHO_SLOTS) - 1) * Pow2(NUM_BUFFS - NUM_ECHO_SLOTS)
  {
  }

  function NumFilledSlots(mask: nat): nat
  {
    Popcount(mask)
  }

  predicate IsValidPartialMask(mask: nat)
  {
    NumFilledSlots(mask) <= NUM_ECHO_SLOTS - 1
  }

  predicate IsValidFullMask(mask: nat)
  {
    NumFilledSlots(mask) == NUM_ECHO_SLOTS
  }

  /** `(mask & !MASK_ALL) == 0`: no bit above bit 12. */
  predicate IsMaskInDomain(mask: nat)
  {
    mask <= MASK_ALL
  }

  predicate IsValidExternalPartialMask(mask: nat)
  {
    IsMaskInDomain(mask) && IsValidPartialMask(mask)
  }

  predicate IsValidExternalFullMask(mask: nat)
  {
    IsMaskInDomain(mask) && IsValidFullMask(mask)
  }

  lemma {:induction false} HighBitOfLargeMask(m: nat, n: nat)
    requires m >= Pow2(n)
    ensures exists i: nat :: i >= n && Bit(m, i)
  {
    if n == 0 {
      LowestBit(m);
    } else {
      HighBitOfLargeMask(m / 2, n - 1);
      var i: nat :| i >= n - 1 && Bit(m / 2, i);
      assert Bit(m, i + 1);
    }
  }

  /** Being in the domain is exactly having no bit at position 13 or above. */
  lemma InDomainMeansNoHighBits(mask: nat)
    ensures IsMaskInDomain(mask) <==> (forall i: nat :: i >= NUM_BUFFS ==> !Bit(mask, i))
  {
    assert Pow2(13) == 8192;
    if mask <= MASK_ALL {
      BitsBelowPow2(mask, 13);
    } else {
      HighBitOfLargeMask(mask, 13);
    }
  }

  /** External partial and full validity exclude each other, and both reject bits beyond `MASK_ALL`. */
  lemma ExternalValidityExclusive(mask: nat)
    ensures !(IsValidExternalPartialMask(mask) && IsValidExternalFullMask(mask))
    ensures IsValidExternalPartialMask(mask) || IsValidExternalFullMask(mask) ==>
              forall i: nat :: i >= NUM_BUFFS ==> !Bit(mask, i)
  {
    InDomainMeansNoHighBits(mask);
  }

  // ---------------------------------------------------------------------
  // Enumerations

  datatype Kind = Partial | Full

  predicate Valid(kind: Kind, mask: nat)
  {
    match kind
    case Partial => IsValidPartialMask(mask)
    case Full => IsValidFullMask(mask)
  }

  function Space(kind: Kind): nat
  {
    match kind
    case Partial => PARTIAL_MASK_SPACE
    case Full => FULL_MASK_SPACE
  }

  function NumMasks(kind: Kind): nat
  {
    match kind
    case Partial => NUM_PARTIAL_MASKS
    case Full => NUM_FULL_MASKS
  }

  /** The valid masks of `kind` below `n`, ascending. */
  function Below(kind: Kind, n: nat): seq<nat>
  {
    if n == 0 then []
    else Below(kind, n - 1) + (if Valid(kind, n - 1) then [n - 1] else [])
  }

  /** `PARTIAL_MASKS` and `FULL_MASKS`. */
  function Masks(kind: Kind): seq<nat>
  {
    Below(kind, Space(kind) + 1)
  }

  /** The number of valid masks of `kind` below `mask`: its position in the enumeration. */
  function Rank(kind: Kind, mask: nat): nat
  {
    |Below(kind, mask)|
  }

  /**
   * `partial_mask_to_index` / `full_mask_to_index`: the inverse table read at `mask`.
   * The table has `Space(kind) + 1` entries, so a larger mask is out of bounds.
   */
  function MaskToIndex(kind: Kind, mask: nat): nat
    requires mask <= Space(kind)
  {
    if Valid(kind, mask) then Rank(kind, mask) else 0
  }

  lemma BelowMembers(kind: Kind, n: nat)
    ensures forall i :: 0 <= i < |Below(kind, n)| ==> Below(kind, n)[i] < n && Valid(kind, Below(kind, n)[i])
    ensures forall i, j :: 0 <= i < j < |Below(kind, n)| ==> Below(kind, n)[i] < Below(kind, n)[j]
    ensures forall x: nat :: x in Below(kind, n) <==> x < n && Valid(kind, x)
  {
    BelowBounded(kind, n);
    BelowAscending(kind, n);
    BelowExact(kind, n);
  }

  lemma {:induction false} BelowBounded(kind: Kind, n: nat)
    ensures forall i :: 0 <= i < |Below(kind, n)| ==> Below(kind, n)[i] < n && Valid(kind, Below(kind, n)[i])
  {
    if n > 0 {
      BelowBounded(kind, n - 1);
    }
  }

  lemma {:induction false} BelowAscending(kind: Kind, n: nat)
    ensures forall i, j :: 0 <= i < j < |Below(kind, n)| ==> Below(kind, n)[i] < Below(kind, n)[j]
  {
    if n > 0 {
      BelowAscending(kind, n - 1);
      BelowBounded(kind, n - 1);
    }
  }

  lemma {:induction false} BelowExact(kind: Kind, n: nat)
    ensures forall x: nat :: x in Below(kind, n) <==> x < n && Valid(kind, x)
  {
    if n > 0 {
      BelowExact(kind, n - 1);
    }
  }

  /** A valid mask below `n` sits at its rank. */
  lemma {:induction false} BelowAtRank(kind: Kind, n: nat, mask: nat)
    requires mask < n && Valid(kind, mask)
    ensures Rank(kind, mask) < |Below(kind, n)|
    ensures Below(kind, n)[Rank(kind, mask)] == mask
  {
    if mask < n - 1 {
      BelowAtRank(kind, n - 1, mask);
    }
  }

  /** The entry at position `i` has rank `i`. */
  lemma {:induction false} RankOfEntry(kind: Kind, n: nat, i: nat)
    requires i < |Below(kind, n)|
    ensures Rank(kind, Below(kind, n)[i]) == i
  {
    if i < |Below(kind, n - 1)| {
      RankOfEntry(kind, n - 1, i);
    } else {
      assert Below(kind, n)[i] == n - 1;
    }
  }

  /** `PARTIAL_MASKS` and `FULL_MASKS` are strictly ascending and hold exactly the valid masks up to the space bound. */
  lemma MasksAscendingAndExact(kind: Kind)
    ensures forall i, j :: 0 <= i < j < |Masks(kind)| ==> Masks(kind)[i] < Masks(kind)[j]
    ensures forall x: nat :: x in Masks(kind) <==> x <= Space(kind) && Valid(kind, x)
  {
    BelowMembers(kind, Space(kind) + 1);
  }

  /** Above the space bound, an in-domain mask has more bits than its kind allows. */
  lemma AboveSpace(kind: Kind, x: nat)
    requires Space(kind) < x <= MASK_ALL
    ensures kind == Partial ==> Popcount(x) >= 5
    ensures kind == Full ==> Popcount(x) >= 6
  {
    var r := x - Space(kind);
    PopcountPositive(r);
    match kind
    case Partial =>
      PartialTopBits();
      PopcountSplit(15, r, 9);
    case Full =>
      FullTopBits();
      PopcountSplit(31, r, 8);
  }

  /** The partial space bound is four set bits above nine low bits. */
  lemma PartialTopBits()
    ensures Pow2(9) == 512 && PARTIAL_MASK_SPACE == 15 * Pow2(9) && Popcount(15) == 4
  {
  }

  /** The full space bound is five set bits above eight low bits. */
  lemma FullTopBits()
    ensures Pow2(8) == 256 && FULL_MASK_SPACE == 31 * Pow2(8) && Popcount(31) == 5
  {
  }

  /** Every in-domain valid mask lies within the space bound, so the enumerations are complete. */
  lemma MasksComplete(kind: Kind, mask: nat)
    requires IsMaskInDomain(mask) && Valid(kind, mask)
    ensures mask <= Space(kind)
    ensures mask in Masks(kind)
  {
    if mask > Space(kind) {
      AboveSpace(kind, mask);
    }
    BelowMembers(kind, Space(kind) + 1);
  }

  lemma {:induction false} PopcountPositive(m: nat)
    requires m > 0
    ensures Popcount(m) >= 1
  {
    if m % 2 == 0 {
      PopcountPositive(m / 2);
    }
  }

  /**
   * The enumeration and its inverse table are mutually inverse: the index of a valid
   * mask leads back to it, the mask at an index has that index, and mask 0 has index 0.
   */
  lemma MaskIndexBijection(kind: Kind)
    ensures forall m: nat :: IsMaskInDomain(m) && Valid(kind, m) ==>
              m <= Space(kind) && MaskToIndex(kind, m) < |Masks(kind)| && Masks(kind)[MaskToIndex(kind, m)] == m
    ensures forall i :: 0 <= i < |Masks(kind)| ==>
              Masks(kind)[i] <= Space(kind) && MaskToIndex(kind, Masks(kind)[i]) == i
    ensures kind == Partial ==> MaskToIndex(kind, 0) == 0
  {
    forall m: nat | IsMaskInDomain(m) && Valid(kind, m)
      ensures m <= Space(kind) && MaskToIndex(kind, m) < |Masks(kind)| && Masks(kind)[MaskToIndex(kind, m)] == m
    {
      MasksComplete(kind, m);
      BelowAtRank(kind, Space(kind) + 1, m);
    }
    BelowMembers(kind, Space(kind) + 1);
    forall i | 0 <= i < |Masks(kind)|
      ensures Masks(kind)[i] <= Space(kind) && MaskToIndex(kind, Masks(kind)[i]) == i
    {
      RankOfEntry(kind, Space(kind) + 1, i);
    }
  }

  // ---------------------------------------------------------------------
  // Counting: 1093 = C(13,0) + ... + C(13,4) partial masks, 1287 = C(13,5) full masks

  function Binom(n: nat, p: int): nat
  {
    if p < 0 then 0
    else if n == 0 then (if p == 0 then 1 else 0)
    else Binom(n - 1, p) + Binom(n - 1, p - 1)
  }

  /** The number of `x` in `[lo, lo + len)` with exactly `p` bits set. */
  function CountPop(lo: nat, len: nat, p: int): nat
  {
    if len == 0 then 0
    else CountPop(lo, len - 1, p) + (if Popcount(lo + len - 1) == p then 1 else 0)
  }

  lemma {:induction false} CountPopSplit(lo: nat, a: nat, b: nat, p: int)
    ensures CountPop(lo, a + b, p) == CountPop(lo, a, p) + CountPop(lo + a, b, p)
  {
    if b > 0 {
      CountPopSplit(lo, a, b - 1, p);
    }
  }

  /** Setting bit `n` on every number below `2^n` adds one set bit to each. */
  lemma {:induction false} CountPopShift(n: nat, len: nat, p: int)
    requires len <= Pow2(n)
    ensures CountPop(Pow2(n), len, p) == CountPop(0, len, p - 1)
  {
    if len > 0 {
      CountPopShift(n, len - 1, p);
      PopcountHighBit(len - 1, n);
    }
  }

  lemma {:induction false} CountPopBinom(n: nat, p: int)
    ensures CountPop(0, Pow2(n), p) == Binom(n, p)
  {
    if n == 0 {
      assert CountPop(0, 1, p) == CountPop(0, 0, p) + (if Popcount(0) == p then 1 else 0);
    } else {
      var h := Pow2(n - 1);
      CountPopSplit(0, h, h, p);
      CountPopShift(n - 1, h, p);
      CountPopBinom(n - 1, p);
      CountPopBinom(n - 1, p - 1);
      if p < 0 {
        assert Binom(n - 1, p - 1) == 0;
      }
    }
  }

  lemma {:induction false} CountPopNone(lo: nat, len: nat, p: int)
    requires forall x: nat :: lo <= x < lo + len ==> Popcount(x) != p
    ensures CountPop(lo, len, p) == 0
  {
    if len > 0 {
      CountPopNone(lo, len - 1, p);
    }
  }

  lemma {:induction false} BinomRow(n: nat, a: nat, b: nat, c: nat, d: nat, e: nat, f: nat)
    requires n > 0
    requires Binom(n - 1, 0) == a && Binom(n - 1, 1) == b && Binom(n - 1, 2) == c
    requires Binom(n - 1, 3) == d && Binom(n - 1, 4) == e && Binom(n - 1, 5) == f
    ensures Binom(n, 0) == a && Binom(n, 1) == a + b && Binom(n, 2) == b + c
    ensures Binom(n, 3) == c + d && Binom(n, 4) == d + e && Binom(n, 5) == e + f
  {
    assert Binom(n - 1, -1) == 0;
  }

  lemma BinomThirteen()
    ensures Binom(NUM_BUFFS, 0) + Binom(NUM_BUFFS, 1) + Binom(NUM_BUFFS, 2) + Binom(NUM_BUFFS, 3) + Binom(NUM_BUFFS, 4) == NUM_PARTIAL_MASKS
    ensures Binom(NUM_BUFFS, 5) == NUM_FULL_MASKS
  {
    BinomRow(1, 1, 0, 0, 0, 0, 0);
    BinomRow(2, 1, 1, 0, 0, 0, 0);
    BinomRow(3, 1, 2, 1, 0, 0, 0);
    BinomRow(4, 1, 3, 3, 1, 0, 0);
    BinomRow(5, 1, 4, 6, 4, 1, 0);
    BinomRow(6, 1, 5, 10, 10, 5, 1);
    BinomRow(7, 1, 6, 15, 20, 15, 6);
    BinomRow(8, 1, 7, 21, 35, 35, 21);
    BinomRow(9, 1, 8, 28, 56, 70, 56);
    BinomRow(10, 1, 9, 36, 84, 126, 126);
    BinomRow(11, 1, 10, 45, 120, 210, 252);
    BinomRow(12, 1, 11, 55, 165, 330, 462);
    BinomRow(13, 1, 12, 66, 220, 495, 792);
  }

  /** The number of `x` in `[lo, lo + len)` with at most `q` bits set. */
  function CountPopAtMost(lo: nat, len: nat, q: int): nat
  {
    if len == 0 then 0
    else CountPopAtMost(lo, len - 1, q) + (if Popcount(lo + len - 1) <= q then 1 else 0)
  }

  lemma {:induction false} CountPopAtMostStep(lo: nat, len: nat, q: int)
    ensures CountPopAtMost(lo, len, q) == CountPopAtMost(lo, len, q - 1) + CountPop(lo, len, q)
  {
    if len > 0 {
      CountPopAtMostStep(lo, len - 1, q);
    }
  }

  lemma {:induction false} CountPopAtMostNegative(lo: nat, len: nat)
    ensures CountPopAtMost(lo, len, -1) == 0
  {
    if len > 0 {
      CountPopAtMostNegative(lo, len - 1);
    }
  }

  lemma {:induction false} BelowPartialAtMost(n: nat)
    ensures |Below(Partial, n)| == CountPopAtMost(0, n, 4)
  {
    if n > 0 {
      BelowPartialAtMost(n - 1);
    }
  }

  lemma BelowPartialCount(n: nat)
    ensures |Below(Partial, n)| ==
      CountPop(0, n, 0) + CountPop(0, n, 1) + CountPop(0, n, 2) + CountPop(0, n, 3) + CountPop(0, n, 4)
  {
    BelowPartialAtMost(n);
    CountPopAtMostStep(0, n, 4);
    CountPopAtMostStep(0, n, 3);
    CountPopAtMostStep(0, n, 2);
    CountPopAtMostStep(0, n, 1);
    CountPopAtMostStep(0, n, 0);
    CountPopAtMostNegative(0, n);
  }

  lemma {:induction false} BelowFullCount(n: nat)
    ensures |Below(Full, n)| == CountPop(0, n, 5)
  {
    if n > 0 {
      BelowFullCount(n - 1);
    }
  }

  /** Every number below `2^n` with `p` bits lies below `lo` when none lies in `[lo, 2^n)`. */
  lemma CountPopTail(n: nat, lo: nat, rest: nat, p: int)
    requires lo + rest == Pow2(n)
    requires CountPop(lo, rest, p) == 0
    ensures CountPop(0, lo, p) == Binom(n, p)
  {
    CountPopBinom(n, p);
    CountPopSplit(0, lo, rest, p);
  }

  /** Above the space bound there is no mask with a number of bits the kind allows. */
  lemma TailHasNone(kind: Kind, p: int)
    requires kind == Partial ==> p <= 4
    requires kind == Full ==> p <= 5
    ensures CountPop(Space(kind) + 1, MASK_ALL - Space(kind), p) == 0
  {
    forall x: nat | Space(kind) + 1 <= x < Space(kind) + 1 + (MASK_ALL - Space(kind))
      ensures Popcount(x) != p
    {
      AboveSpace(kind, x);
    }
    CountPopNone(Space(kind) + 1, MASK_ALL - Space(kind), p);
  }

  lemma PartialCountTerm(n: nat, b: nat, p: int)
    requires n == PARTIAL_MASK_SPACE + 1 && Pow2(b) == MASK_ALL + 1 && p <= 4
    ensures CountPop(0, n, p) == Binom(b, p)
  {
    var rest := MASK_ALL - PARTIAL_MASK_SPACE;
    TailHasNone(Partial, p);
    CountPopTail(b, n, rest, p);
  }

  lemma PartialCountIsBinomSum(n: nat, b: nat)
    requires n == PARTIAL_MASK_SPACE + 1 && Pow2(b) == MASK_ALL + 1
    ensures |Below(Partial, n)| == Binom(b, 0) + Binom(b, 1) + Binom(b, 2) + Binom(b, 3) + Binom(b, 4)
  {
    BelowPartialCount(n);
    PartialCountTerm(n, b, 0);
    PartialCountTerm(n, b, 1);
    PartialCountTerm(n, b, 2);
    PartialCountTerm(n, b, 3);
    PartialCountTerm(n, b, 4);
  }

  lemma FullCountTerm(n: nat, b: nat, p: int)
    requires n == FULL_MASK_SPACE + 1 && Pow2(b) == MASK_ALL + 1 && p <= 5
    ensures CountPop(0, n, p) == Binom(b, p)
  {
    var rest := MASK_ALL - FULL_MASK_SPACE;
    assert Space(Full) + 1 == n && MASK_ALL - Space(Full) == rest;
    TailHasNone(Full, p);
    CountPopTail(b, n, rest, p);
  }

  lemma FullCountIsBinom(n: nat, b: nat)
    requires n == FULL_MASK_SPACE + 1 && Pow2(b) == MASK_ALL + 1
    ensures |Below(Full, n)| == Binom(b, 5)
  {
    BelowFullCount(n);
    FullCountTerm(n, b, 5);
  }

  /** `NUM_PARTIAL_MASKS` is 1093 and `NUM_FULL_MASKS` is 1287. */
  lemma WidthIsThirteen()
    ensures Pow2(NUM_BUFFS) == MASK_ALL + 1
  {
  }

  lemma PartialMaskCount(kind: Kind)
    ensures kind == Partial ==> |Masks(kind)| == NUM_PARTIAL_MASKS
  {
    if kind == Partial {
      PartialCountAt(Space(kind) + 1);
    }
  }

  lemma PartialCountAt(n: nat)
    requires n == PARTIAL_MASK_SPACE + 1
    ensures |Below(Partial, n)| == NUM_PARTIAL_MASKS
  {
    WidthIsThirteen();
    PartialCountIsBinomSum(n, NUM_BUFFS);
    BinomThirteen();
  }

  lemma FullMaskCount(kind: Kind)
    ensures kind == Full ==> |Masks(kind)| == NUM_FULL_MASKS
  {
    if kind == Full {
      FullCountAt(Space(kind) + 1);
    }
  }

  lemma FullCountAt(n: nat)
    requires n == FULL_MASK_SPACE + 1
    ensures |Below(Full, n)| == NUM_FULL_MASKS
  {
    WidthIsThirteen();
    FullCountIsBinom(n, NUM_BUFFS);
    BinomThirteen();
  }

  lemma MaskCounts(kind: Kind)
    ensures |Masks(kind)| == NumMasks(kind)
  {
    PartialMaskCount(kind);
    FullMaskCount(kind);
  }
  // ---------------------------------------------------------------------
  // The table builders: `loop { if valid { ... } if mask == SPACE { break } mask += 1 }`

  /** `count_partial_masks` / `count_full_masks`. */
  method CountMasks(kind: Kind) returns (count: nat)
    ensures count == |Masks(kind)|
    ensures count == NumMasks(kind)
  {
    count := 0;
    var mask := 0;
    while true
      invariant mask <= Space(kind)
      invariant count == |Below(kind, mask)|
      decreases Space(kind) - mask
    {
      if Valid(kind, mask) {
        count := count + 1;
      }
      if mask == Space(kind) {
        break;
      }
      mask := mask + 1;
    }
    MaskCounts(kind);
  }

  /** `build_partial_masks` / `build_full_masks`. */
  method BuildMasks(kind: Kind) returns (masks: array<nat>)
    ensures masks.Length == NumMasks(kind)
    ensures masks[..] == Masks(kind)
  {
    masks := new nat[NumMasks(kind)](_ => 0);
    var idx := 0;
    var mask := 0;
    while true
      invariant mask <= Space(kind)
      invariant idx == Rank(kind, mask) <= masks.Length
      invariant masks[..idx] == Below(kind, mask)
      decreases Space(kind) - mask
    {
      if Valid(kind, mask) {
        RankBelowCount(kind, mask);
        masks[idx] := mask;
        idx := idx + 1;
      }
      assert masks[..idx] == Below(kind, mask + 1);
      if mask == Space(kind) {
        break;
      }
      mask := mask + 1;
    }
    MaskCounts(kind);
    assert masks[..] == masks[..idx];
  }

  /** A valid mask within the space bound has a rank below the table size. */
  lemma RankBelowCount(kind: Kind, mask: nat)
    requires mask <= Space(kind) && Valid(kind, mask)
    ensures Rank(kind, mask) < NumMasks(kind)
  {
    BelowLength(kind, mask + 1, Space(kind) + 1);
    MaskCounts(kind);
  }

  /** Ranks grow strictly along valid masks, so distinct valid masks have distinct indices. */
  lemma RankIncreasing(kind: Kind, a: nat, b: nat)
    requires a < b && Valid(kind, a)
    ensures Rank(kind, a) < Rank(kind, b)
  {
    BelowLength(kind, a + 1, b);
  }

  lemma RankInjective(kind: Kind, a: nat, b: nat)
    requires Valid(kind, a) && Valid(kind, b) && Rank(kind, a) == Rank(kind, b)
    ensures a == b
  {
    if a < b {
      RankIncreasing(kind, a, b);
    } else if b < a {
      RankIncreasing(kind, b, a);
    }
  }

  /** An external partial mask lies in the table's range and indexes below the number of partial masks. */
  lemma PartialIndexInRange(mask: nat)
    requires IsValidExternalPartialMask(mask)
    ensures mask <= PARTIAL_MASK_SPACE
    ensures MaskToIndex(Partial, mask) == Rank(Partial, mask) < NUM_PARTIAL_MASKS
  {
    if mask > PARTIAL_MASK_SPACE {
      AboveSpace(Partial, mask);
    }
    RankBelowCount(Partial, mask);
  }

  lemma {:induction false} BelowLength(kind: Kind, n: nat, m: nat)
    requires n <= m
    ensures |Below(kind, n)| <= |Below(kind, m)|
    decreases m - n
  {
    if n < m {
      BelowLength(kind, n, m - 1);
    }
  }

  /** The first `n` entries of the inverse table. */
  function IndexPrefix(kind: Kind, n: nat): (r: seq<nat>)
    requires n <= Space(kind) + 1
    ensures |r| == n
  {
    if n == 0 then [] else IndexPrefix(kind, n - 1) + [MaskToIndex(kind, n - 1)]
  }

  lemma {:induction false} IndexPrefixAt(kind: Kind, n: nat)
    requires n <= Space(kind) + 1
    ensures forall m :: 0 <= m < n ==> IndexPrefix(kind, n)[m] == MaskToIndex(kind, m)
  {
    if n > 0 {
      IndexPrefixAt(kind, n - 1);
      var shorter := IndexPrefix(kind, n - 1);
      assert IndexPrefix(kind, n) == shorter + [MaskToIndex(kind, n - 1)];
      forall m | 0 <= m < n
        ensures IndexPrefix(kind, n)[m] == MaskToIndex(kind, m)
      {
        if m < n - 1 {
          assert IndexPrefix(kind, n)[m] == shorter[m];
        }
      }
    }
  }

  /** `build_partial_mask_to_index` / `build_full_mask_to_index`. */
  method BuildMaskToIndex(kind: Kind) returns (table: array<nat>)
    ensures table.Length == Space(kind) + 1
    ensures forall m :: 0 <= m < table.Length ==> table[m] == MaskToIndex(kind, m)
  {
    table := new nat[Space(kind) + 1](_ => 0);
    var idx := 0;
    var mask := 0;
    while true
      invariant mask <= Space(kind)
      invariant idx == Rank(kind, mask)
      invariant table[..mask] == IndexPrefix(kind, mask)
      invariant forall m :: mask <= m < table.Length ==> table[m] == 0
      decreases Space(kind) - mask
    {
      idx := IndexOne(kind, table, mask, idx);
      if mask == Space(kind) {
        break;
      }
      mask := mask + 1;
    }
    assert table[..] == IndexPrefix(kind, Space(kind) + 1);
    IndexPrefixAt(kind, Space(kind) + 1);
  }

  /** One step of the table build: a valid mask gets the next index. */
  method IndexOne(kind: Kind, table: array<nat>, mask: nat, idx: nat) returns (next: nat)
    requires table.Length == Space(kind) + 1 && mask <= Space(kind)
    requires idx == Rank(kind, mask) && table[..mask] == IndexPrefix(kind, mask)
    requires forall m :: mask <= m < table.Length ==> table[m] == 0
    modifies table
    ensures next == Rank(kind, mask + 1) && table[..mask + 1] == IndexPrefix(kind, mask + 1)
    ensures forall m :: mask < m < table.Length ==> table[m] == 0
  {
    ghost var before := table[..mask];
    next := idx;
    if Valid(kind, mask) {
      table[mask] := idx;
      next := idx + 1;
    }
    assert table[mask] == MaskToIndex(kind, mask);
    assert table[..mask + 1] == before + [table[mask]];
  }

  // ---------------------------------------------------------------------
  // 0/1 vectors

  newtype u8 = x: int | 0 <= x < 256

  /** The mask whose bit `i` is set exactly when entry `i < 13` of `bits` is 1. */
  function MaskOfBits(bits: seq<u8>): (m: nat)
    ensures m <= MASK_ALL
    ensures forall i: nat :: Bit(m, i) <==> (i < NUM_BUFFS && i < |bits| && bits[i] == 1)
  {
    var n := if |bits| < NUM_BUFFS then |bits| else NUM_BUFFS;
    Pow2Monotone(n, NUM_BUFFS);
    assert Pow2(13) == 8192;
    MaskOfBitsUpTo(bits, n)
  }

  function MaskOfBitsUpTo(bits: seq<u8>, n: nat): (m: nat)
    requires n <= |bits| && n <= NUM_BUFFS
    ensures m < Pow2(n)
    ensures forall i: nat :: Bit(m, i) <==> (i < n && bits[i] == 1)
  {
    if n == 0 then
      ZeroHasNoBits2();
      0
    else
      var prev := MaskOfBitsUpTo(bits, n - 1);
      var m := if bits[n - 1] == 1 then prev + Pow2(n - 1) else prev;
      MaskOfBitsStep(bits, n, prev, m);
      m
  }

  /** Entry `n - 1` of `bits` decides bit `n - 1`; the bits below are those of `prev`. */
  lemma MaskOfBitsStep(bits: seq<u8>, n: nat, prev: nat, m: nat)
    requires 0 < n <= |bits| && prev < Pow2(n - 1)
    requires forall i: nat :: Bit(prev, i) <==> (i < n - 1 && bits[i] == 1)
    requires m == if bits[n - 1] == 1 then prev + Pow2(n - 1) else prev
    ensures m < Pow2(n)
    ensures forall i: nat :: Bit(m, i) <==> (i < n && bits[i] == 1)
  {
    assert Pow2(n) == 2 * Pow2(n - 1);
    if bits[n - 1] == 1 {
      AddBitBelow(prev, n - 1);
      forall i: nat ensures Bit(m, i) <==> (i < n && bits[i] == 1) {
        assert Bit(m, i) <==> (Bit(prev, i) || i == n - 1);
      }
    } else {
      forall i: nat ensures Bit(m, i) <==> (i < n && bits[i] == 1) {
        assert Bit(m, i) <==> Bit(prev, i);
      }
    }
  }

  lemma ZeroHasNoBits2()
    ensures forall i: nat :: !Bit(0, i)
  {
    forall i: nat ensures !Bit(0, i) { ZeroHasNoBits(i); }
  }

  lemma AddBitBelow(m: nat, n: nat)
    requires m < Pow2(n)
    ensures !Bit(m, n)
    ensures m + Pow2(n) < Pow2(n + 1)
    ensures forall j: nat :: Bit(m + Pow2(n), j) <==> (Bit(m, j) || j == n)
  {
    assert Pow2(n + 1) == 2 * Pow2(n);
    BitsBelowPow2(m, n);
    AddBit(m, n);
  }

  /** `mask_to_bits`: entry `i` is bit `i` of the mask. */
  function BitsOfMask(mask: nat): (bits: seq<u8>)
    ensures |bits| == NUM_BUFFS
  {
    seq(NUM_BUFFS, i requires 0 <= i => if Bit(mask, i) then 1 else 0)
  }

  /** `bits_to_mask`. */
  method BitsToMask(bits: seq<u8>) returns (mask: nat)
    ensures mask == MaskOfBits(bits)
  {
    mask := 0;
    var index := 0;
    var limit := if |bits| < NUM_BUFFS then |bits| else NUM_BUFFS;
    ZeroHasNoBits2();
    while index < limit
      invariant index <= limit
      invariant mask < Pow2(index)
      invariant forall i: nat :: Bit(mask, i) <==> (i < index && bits[i] == 1)
    {
      if bits[index] == 1 {
        OrPow2(mask, index);
        AddBitBelow(mask, index);
        mask := Or(mask, Pow2(index));
      } else {
        assert Pow2(index + 1) == 2 * Pow2(index);
      }
      index := index + 1;
    }
    BitsDetermine(mask, MaskOfBits(bits));
  }

  /** `mask_to_bits`: `bits[i] = (mask >> i) & 1`. */
  method MaskToBits(mask: nat) returns (bits: array<u8>)
    ensures bits[..] == BitsOfMask(mask)
  {
    bits := new u8[NUM_BUFFS](_ => 0);
    var index := 0;
    while index < NUM_BUFFS
      invariant index <= NUM_BUFFS
      invariant forall i :: 0 <= i < index ==> bits[i] == if Bit(mask, i) then 1 else 0
    {
      bits[index] := if Bit(mask, index) then 1 else 0;
      index := index + 1;
    }
  }

  /** `bits_to_mask(mask_to_bits(m)) == m` for every in-domain mask. */
  lemma MaskBitsRoundTrip(mask: nat)
    requires IsMaskInDomain(mask)
    ensures MaskOfBits(BitsOfMask(mask)) == mask
  {
    InDomainMeansNoHighBits(mask);
    BitsDetermine(MaskOfBits(BitsOfMask(mask)), mask);
  }

  /** `mask_to_bits(bits_to_mask(b)) == b` for every length-13 vector of zeros and ones. */
  lemma BitsMaskRoundTrip(bits: seq<u8>)
    requires |bits| == NUM_BUFFS
    requires forall i :: 0 <= i < |bits| ==> bits[i] == 0 || bits[i] == 1
    ensures BitsOfMask(MaskOfBits(bits)) == bits
  {
  }

  /** Entries other than 1, and entries past index 12, do not affect `bits_to_mask`. */
  lemma BitsToMaskIgnoresOthers(b1: seq<u8>, b2: seq<u8>)
    requires forall i :: 0 <= i < NUM_BUFFS ==> ((i < |b1| && b1[i] == 1) <==> (i < |b2| && b2[i] == 1))
    ensures MaskOfBits(b1) == MaskOfBits(b2)
  {
    BitsDetermine(MaskOfBits(b1), MaskOfBits(b2));
  }
}
