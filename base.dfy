/**
 * Small shared vocabulary: optional values, results, the handful of IEEE
 * double facts the engine tests for (finite, NaN, infinite), Rust's
 * `f64::round`, the saturating `as u16` cast, and sums of reals.
 */
module Base {

  datatype Option<T> = None | Some(value: T)

  datatype Result<T, E> = Ok(value: T) | Err(error: E)

  /** A 64-bit float as far as the engine inspects it: a finite value, NaN, or an infinity. */
  datatype F64 = Finite(val: real) | NaN | PosInf | NegInf
  {
    predicate IsFinite() { Finite? }
    predicate IsNaN() { NaN? }
    /** `self < x` for a finite `x`: false for NaN, true for negative infinity. */
    predicate Less(x: real) { NegInf? || (Finite? && val < x) }
    /** `self > x` for a finite `x`: false for NaN, true for positive infinity. */
    predicate Greater(x: real) { PosInf? || (Finite? && val > x) }
    /** `self <= x` for a finite `x`. */
    predicate AtMost(x: real) { NegInf? || (Finite? && val <= x) }
  }

  /** What the weight validations reject: not finite, or below zero. */
  predicate InvalidWeight(w: F64)
  {
    !w.IsFinite() || w.Less(0.0)
  }

  const U16_MAX: nat := 65535

  /** A prefix one longer is the shorter prefix and the next element. */
  lemma PrefixStep<T>(s: seq<T>, b: nat)
    requires b < |s|
    ensures s[..b + 1] == s[..b] + [s[b]]
  {
  }

  /** Rust's `f64::round` on a finite value: nearest integer, halves away from zero. */
  function Round(x: real): (r: int)
    ensures x >= 0.0 ==> r >= 0
    ensures (r as real) - 0.5 <= x <= (r as real) + 0.5
  {
    if x >= 0.0 then (x + 0.5).Floor else -((-x + 0.5).Floor)
  }

  /** Rust's saturating `as u16` cast applied to an integral value. */
  function SaturateU16(v: int): (r: nat)
    ensures r <= U16_MAX
    ensures 0 <= v <= U16_MAX ==> r == v
    ensures v < 0 ==> r == 0
    ensures v > U16_MAX ==> r == U16_MAX
  {
    if v < 0 then 0 else if v > U16_MAX then U16_MAX else v
  }

  /** `(x * 100.0).round() as u16` for a finite x. */
  function ScaledU16(x: real, scale: real): nat
  {
    SaturateU16(Round(x * scale))
  }

  function Sum(s: seq<real>): real
  {
    if s == [] then 0.0 else Sum(s[..|s| - 1]) + s[|s| - 1]
  }

  lemma {:induction false} SumNonNegative(s: seq<real>)
    requires forall i :: 0 <= i < |s| ==> s[i] >= 0.0
    ensures Sum(s) >= 0.0
  {
    if s != [] {
      SumNonNegative(s[..|s| - 1]);
    }
  }

  function Min(a: real, b: real): real { if a < b then a else b }

  function MinNat(a: nat, b: nat): nat { if a < b then a else b }

  function MaxNat(a: nat, b: nat): nat { if a < b then b else a }
}
