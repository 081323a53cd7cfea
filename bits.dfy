/**
 * Bit arithmetic on natural numbers, the way the engine uses `u16` masks:
 * bit tests, population count, AND/OR with a single bit, the lowest set
 * bit, complements against an all-ones mask, and the submask walk
 * `sub = (sub - 1) & mask`.
 */
module Bits {

  function Pow2(n: nat): (r: nat)
    ensures r >= 1
  {
    if n == 0 then 1 else 2 * Pow2(n - 1)
  }

  lemma {:induction false} Pow2Monotone(a: nat, b: nat)
    requires a <= b
    ensures Pow2(a) <= Pow2(b)
    decreases b - a
  {
    if a < b {
      Pow2Monotone(a, b - 1);
    }
  }

  /** Bit `i` of `m` is set: `(m >> i) & 1 == 1`. */
  predicate Bit(m: nat, i: nat)
    decreases i
  {
    if i == 0 then m % 2 == 1 else Bit(m / 2, i - 1)
  }

  /** `m.count_ones()`. */
  function Popcount(m: nat): nat
  {
    if m == 0 then 0 else m % 2 + Popcount(m / 2)
  }

  /** Bitwise AND. */
  function And(a: nat, b: nat): (r: nat)
    ensures r <= a && r <= b
  {
    if a == 0 || b == 0 then 0
    else 2 * And(a / 2, b / 2) + (if a % 2 == 1 && b % 2 == 1 then 1 else 0)
  }

  /** Bitwise OR. */
  function Or(a: nat, b: nat): (r: nat)
    ensures r >= a && r >= b
  {
    if a == 0 then b
    else if b == 0 then a
    else 2 * Or(a / 2, b / 2) + (if a % 2 == 1 || b % 2 == 1 then 1 else 0)
  }

  /** Every bit of `s` is a bit of `m`: `s & m == s` (equivalently `s & !m == 0`). */
  predicate IsSubmask(s: nat, m: nat)
  {
    And(s, m) == s
  }

  /** `r.trailing_zeros()` for a non-zero `r`. */
  function TrailingZeros(r: nat): nat
    requires r > 0
  {
    if r % 2 == 1 then 0 else 1 + TrailingZeros(r / 2)
  }

  /** The lowest set bit of a non-zero `r`, which the engine computes as `r & r.wrapping_neg()`. */
  function Lsb(r: nat): nat
    requires r > 0
  {
    Pow2(TrailingZeros(r))
  }

  // ---------------------------------------------------------------------
  // Single bits

  lemma {:induction false} BitsBelowPow2(m: nat, n: nat)
    requires m < Pow2(n)
    ensures Popcount(m) <= n
    ensures forall i: nat :: i >= n ==> !Bit(m, i)
  {
    if n > 0 {
      BitsBelowPow2(m / 2, n - 1);
      forall i: nat | i >= n ensures !Bit(m, i) {
        assert Bit(m, i) == Bit(m / 2, i - 1);
      }
    } else {
      assert m == 0;
      forall i: nat ensures !Bit(0, i) { ZeroHasNoBits(i); }
    }
  }

  lemma {:induction false} ZeroHasNoBits(i: nat)
    ensures !Bit(0, i)
  {
    if i > 0 { ZeroHasNoBits(i - 1); }
  }

  lemma {:induction false} Pow2Bits(i: nat)
    ensures Popcount(Pow2(i)) == 1
    ensures forall j: nat :: Bit(Pow2(i), j) <==> j == i
  {
    if i == 0 {
      assert Popcount(1) == 1 + Popcount(0);
      forall j: nat ensures Bit(1, j) <==> j == 0 {
        if j > 0 { ZeroHasNoBits(j - 1); }
      }
    } else {
      Pow2Bits(i - 1);
      assert Pow2(i) / 2 == Pow2(i - 1);
      forall j: nat ensures Bit(Pow2(i), j) <==> j == i {
        if j > 0 { assert Bit(Pow2(i), j) == Bit(Pow2(i - 1), j - 1); }
      }
    }
  }

  /** Setting a clear bit adds `2^i`, adds one to the population count and adds exactly that bit. */
  lemma {:induction false} AddBit(m: nat, i: nat)
    requires !Bit(m, i)
    ensures Popcount(m + Pow2(i)) == Popcount(m) + 1
    ensures forall j: nat :: Bit(m + Pow2(i), j) <==> (Bit(m, j) || j == i)
  {
    if i == 0 {
      assert m % 2 == 0;
      assert (m + 1) / 2 == m / 2;
      forall j: nat ensures Bit(m + 1, j) <==> (Bit(m, j) || j == 0) {
        if j > 0 {
          assert Bit(m + 1, j) == Bit((m + 1) / 2, j - 1);
          assert Bit(m, j) == Bit(m / 2, j - 1);
        }
      }
    } else {
      var x := m + Pow2(i);
      assert Pow2(i) == 2 * Pow2(i - 1);
      assert x % 2 == m % 2 && x / 2 == m / 2 + Pow2(i - 1);
      assert !Bit(m / 2, i - 1);
      AddBit(m / 2, i - 1);
      forall j: nat ensures Bit(x, j) <==> (Bit(m, j) || j == i) {
        if j > 0 {
          assert Bit(x, j) == Bit(x / 2, j - 1);
          assert Bit(m, j) == Bit(m / 2, j - 1);
        }
      }
    }
  }

  /** Clearing a set bit subtracts `2^i`. */
  lemma RemoveBit(m: nat, i: nat)
    requires Bit(m, i)
    ensures m >= Pow2(i)
    ensures !Bit(m - Pow2(i), i)
    ensures Popcount(m - Pow2(i)) + 1 == Popcount(m)
    ensures forall j: nat :: Bit(m - Pow2(i), j) <==> (Bit(m, j) && j != i)
  {
    RemoveBitBasic(m, i);
    AddBit(m - Pow2(i), i);
  }

  lemma {:induction false} RemoveBitBasic(m: nat, i: nat)
    requires Bit(m, i)
    ensures m >= Pow2(i)
    ensures !Bit(m - Pow2(i), i)
  {
    if i == 0 {
      assert (m - 1) % 2 == 0;
    } else {
      assert Pow2(i) == 2 * Pow2(i - 1);
      RemoveBitBasic(m / 2, i - 1);
      var x := m - Pow2(i);
      assert x / 2 == m / 2 - Pow2(i - 1);
      assert Bit(x, i) == Bit(x / 2, i - 1);
    }
  }

  /** `m | (1 << i)`. */
  lemma {:induction false} OrPow2(m: nat, i: nat)
    ensures Or(m, Pow2(i)) == if Bit(m, i) then m else m + Pow2(i)
  {
    if i == 0 {
      if m > 0 {
        assert Or(m, 1) == 2 * Or(m / 2, 0) + 1;
      }
    } else {
      assert Pow2(i) == 2 * Pow2(i - 1);
      OrPow2(m / 2, i - 1);
      if m > 0 {
        assert Or(m, Pow2(i)) == 2 * Or(m / 2, Pow2(i - 1)) + m % 2;
        assert Bit(m, i) == Bit(m / 2, i - 1);
      }
    }
  }

  /** `(m & (1 << i)) != 0` tests bit `i`. */
  lemma {:induction false} AndPow2(m: nat, i: nat)
    ensures (And(m, Pow2(i)) != 0) <==> Bit(m, i)
  {
    if i == 0 {
      if m > 0 {
        assert And(m, 1) == 2 * And(m / 2, 0) + (if m % 2 == 1 then 1 else 0);
      }
    } else {
      assert Pow2(i) == 2 * Pow2(i - 1);
      AndPow2(m / 2, i - 1);
      if m > 0 {
        assert And(m, Pow2(i)) == 2 * And(m / 2, Pow2(i - 1));
        assert Bit(m, i) == Bit(m / 2, i - 1);
      } else {
        ZeroHasNoBits(i);
      }
    }
  }

  /** Two numbers with the same bits are equal. */
  lemma {:induction false} BitsDetermine(a: nat, b: nat)
    requires forall i: nat :: Bit(a, i) == Bit(b, i)
    ensures a == b
    decreases a + b
  {
    assert Bit(a, 0) == Bit(b, 0);
    if a != 0 || b != 0 {
      forall i: nat ensures Bit(a / 2, i) == Bit(b / 2, i) {
        assert Bit(a, i + 1) == Bit(a / 2, i);
        assert Bit(b, i + 1) == Bit(b / 2, i);
      }
      BitsDetermine(a / 2, b / 2);
    }
  }

  // ---------------------------------------------------------------------
  // Complement and lowest bit

  /** `all ^ m` where `all` has the low `n` bits set and `m` lies below it is `all - m`, the complement. */
  lemma {:induction false} Complement(m: nat, n: nat)
    requires m < Pow2(n)
    ensures forall i: nat :: Bit(Pow2(n) - 1 - m, i) <==> (i < n && !Bit(m, i))
  {
    if n == 0 {
      forall i: nat ensures !Bit(0, i) { ZeroHasNoBits(i); }
    } else {
      assert Pow2(n) == 2 * Pow2(n - 1);
      var x := Pow2(n) - 1 - m;
      assert x % 2 == 1 - m % 2;
      assert x / 2 == Pow2(n - 1) - 1 - m / 2;
      Complement(m / 2, n - 1);
      forall i: nat ensures Bit(x, i) <==> (i < n && !Bit(m, i)) {
        if i > 0 {
          assert Bit(x, i) == Bit(x / 2, i - 1);
          assert Bit(m, i) == Bit(m / 2, i - 1);
        }
      }
    }
  }

  /** The lowest set bit is set, every lower bit is clear, and removing it leaves the other bits. */
  lemma {:induction false} LowestBit(r: nat)
    requires r > 0
    ensures Bit(r, TrailingZeros(r))
    ensures forall j: nat :: j < TrailingZeros(r) ==> !Bit(r, j)
  {
    if r % 2 == 0 {
      LowestBit(r / 2);
      forall j: nat | j < TrailingZeros(r) ensures !Bit(r, j) {
        if j > 0 { assert Bit(r, j) == Bit(r / 2, j - 1); }
      }
    }
  }

  // ---------------------------------------------------------------------
  // AND, OR and submasks

  lemma {:induction false} AndBits(a: nat, b: nat)
    ensures forall i: nat :: Bit(And(a, b), i) <==> (Bit(a, i) && Bit(b, i))
  {
    if a == 0 || b == 0 {
      forall i: nat ensures !Bit(0, i) { ZeroHasNoBits(i); }
    } else {
      AndBits(a / 2, b / 2);
      var r := And(a, b);
      assert r / 2 == And(a / 2, b / 2);
      forall i: nat ensures Bit(r, i) <==> (Bit(a, i) && Bit(b, i)) {
        if i > 0 {
          assert Bit(r, i) == Bit(r / 2, i - 1);
          assert Bit(a, i) == Bit(a / 2, i - 1);
          assert Bit(b, i) == Bit(b / 2, i - 1);
        }
      }
    }
  }

  /** `s` is a submask of `m` exactly when every bit of `s` is a bit of `m`. */
  lemma {:induction false} SubmaskBits(s: nat, m: nat)
    ensures IsSubmask(s, m) ==> (forall i: nat :: Bit(s, i) ==> Bit(m, i))
    ensures (forall i: nat :: Bit(s, i) ==> Bit(m, i)) ==> IsSubmask(s, m)
  {
    if forall i: nat :: Bit(s, i) ==> Bit(m, i) {
      BitsToSubmask(s, m);
    } else {
      AndBits(s, m);
    }
  }

  lemma BitsToSubmask(s: nat, m: nat)
    requires forall i: nat :: Bit(s, i) ==> Bit(m, i)
    ensures IsSubmask(s, m)
  {
    AndBits(s, m);
    BitsDetermine(And(s, m), s);
  }

  lemma {:induction false} AndIsSubmask(x: nat, m: nat)
    ensures IsSubmask(And(x, m), m)
  {
    AndBits(x, m);
    SubmaskBits(And(x, m), m);
  }

  lemma {:induction false} SubmaskStep(s: nat, m: nat)
    ensures IsSubmask(s, m) <==> ((s % 2 == 1 ==> m % 2 == 1) && IsSubmask(s / 2, m / 2))
  {
    if s != 0 && m == 0 {
      assert And(s, m) == 0;
      assert And(s / 2, 0) == 0;
    }
  }

  /** `(s - 1) & m` is the greatest submask of `m` below the non-zero submask `s`. */
  lemma {:induction false} NextSubmaskIsGreatestBelow(s: nat, m: nat, u: nat)
    requires s > 0 && IsSubmask(s, m) && IsSubmask(u, m) && u < s
    ensures u <= And(s - 1, m)
    decreases s
  {
    SubmaskStep(s, m);
    SubmaskStep(u, m);
    if s % 2 == 1 {
      if s > 1 {
        assert m > 0;
        assert And(s - 1, m) == 2 * And((s - 1) / 2, m / 2);
        assert (s - 1) / 2 == s / 2;
      }
    } else {
      var s' := s / 2;
      assert s' > 0 && m > 0;
      assert (s - 1) / 2 == s' - 1 && (s - 1) % 2 == 1;
      assert And(s - 1, m) == 2 * And(s' - 1, m / 2) + m % 2;
      NextSubmaskIsGreatestBelow(s', m / 2, u / 2);
    }
  }

  /**
   * The submasks visited by `loop { visit(sub); if sub == 0 { break } sub = (sub - 1) & m }`
   * started from `s`, in visiting order.
   */
  function SubmaskWalk(m: nat, s: nat): (w: seq<nat>)
    ensures |w| > 0 && w[0] == s && w[|w| - 1] == 0
    decreases s
  {
    if s == 0 then [0] else [s] + SubmaskWalk(m, And(s - 1, m))
  }

  /** The walk is strictly decreasing, so it visits no submask twice. */
  lemma {:induction false} SubmaskWalkDecreasing(m: nat, s: nat)
    ensures forall i, j :: 0 <= i < j < |SubmaskWalk(m, s)| ==> SubmaskWalk(m, s)[i] > SubmaskWalk(m, s)[j]
    ensures forall i :: 0 <= i < |SubmaskWalk(m, s)| ==> SubmaskWalk(m, s)[i] <= s
    decreases s
  {
    if s > 0 {
      SubmaskWalkDecreasing(m, And(s - 1, m));
    }
  }

  /** Started from a submask of `m`, the walk visits exactly the submasks of `m` not above the start. */
  lemma {:induction false} SubmaskWalkComplete(m: nat, s: nat, u: nat)
    requires IsSubmask(s, m)
    ensures u in SubmaskWalk(m, s) <==> (IsSubmask(u, m) && u <= s)
    decreases s
  {
    SubmaskWalkDecreasing(m, s);
    if s == 0 {
      assert IsSubmask(0, m);
    } else {
      var t := And(s - 1, m);
      AndIsSubmask(s - 1, m);
      SubmaskWalkComplete(m, t, u);
      if IsSubmask(u, m) && u < s {
        NextSubmaskIsGreatestBelow(s, m, u);
      }
    }
  }

  // ---------------------------------------------------------------------
  // Population counts of concatenated bit strings

  /** Bits above position `n` and bits below it count separately. */
  lemma {:induction false} PopcountSplit(a: nat, r: nat, n: nat)
    requires r < Pow2(n)
    ensures Popcount(a * Pow2(n) + r) == Popcount(a) + Popcount(r)
  {
    if n == 0 {
      assert r == 0;
    } else {
      var y := a * Pow2(n - 1);
      assert a * Pow2(n) == 2 * y;
      var x := 2 * y + r;
      assert x % 2 == r % 2 && x / 2 == y + r / 2;
      PopcountSplit(a, r / 2, n - 1);
    }
  }

  /** Setting bit `n` above a number below `2^n` adds exactly one set bit. */
  lemma PopcountHighBit(r: nat, n: nat)
    requires r < Pow2(n)
    ensures Popcount(Pow2(n) + r) == 1 + Popcount(r)
  {
    PopcountSplit(1, r, n);
    assert Popcount(1) == 1 + Popcount(0);
  }
}
