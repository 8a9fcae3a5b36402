/**
  Scalars of the minimiser.

  Every MPFR operation the core uses is correctly rounded: its result is the exact
  result of the operation, rounded once to the run's precision in the run's rounding
  mode. A value of `Arith` captures one (precision, rounding mode) pair as the
  rounding function `rnd` that every operation applies to its exact result, and the
  (rounded) square root `root`. Nothing is assumed about either beyond what a lemma
  states in its `requires`: `IsRounding` (rounding a rounded value changes nothing) or
  `Exact` (no rounding at all, used for the "exact arithmetic" properties).
*/
module Scalars {

  datatype Arith = Arith(rnd: real -> real, root: real -> real)

  /** Rounding is idempotent: a value that is already at the run's precision is kept. */
  ghost predicate IsRounding(ar: Arith)
  {
    forall v :: ar.rnd(ar.rnd(v)) == ar.rnd(v)
  }

  /** Exact arithmetic: nothing is rounded. */
  ghost predicate Exact(ar: Arith)
  {
    forall v :: ar.rnd(v) == v
  }

  /** `v` is a value at the run's precision. */
  predicate Representable(ar: Arith, v: real)
  {
    ar.rnd(v) == v
  }

  // mpfr_mul, mpfr_sqr, mpfr_fma, mpfr_fms, mpfr_add, mpfr_sub, mpfr_div
  function Mul(ar: Arith, a: real, b: real): real { ar.rnd(a * b) }
  function Sqr(ar: Arith, a: real): real { ar.rnd(a * a) }
  function Fma(ar: Arith, a: real, b: real, c: real): real { ar.rnd(a * b + c) }
  function Fms(ar: Arith, a: real, b: real, c: real): real { ar.rnd(a * b - c) }
  function Add(ar: Arith, a: real, b: real): real { ar.rnd(a + b) }
  function Sub(ar: Arith, a: real, b: real): real { ar.rnd(a - b) }
  function Div(ar: Arith, a: real, b: real): real requires b != 0.0 { ar.rnd(a / b) }

  /** mpfr_mul_2ui and mpfr_div_2ui: multiplication and division by 2^k. */
  function Pow2(k: nat): (r: real)
    ensures r >= 1.0
  {
    if k == 0 then 1.0 else 2.0 * Pow2(k - 1)
  }
  function Mul2(ar: Arith, a: real, k: nat): real { ar.rnd(a * Pow2(k)) }
  function Div2(ar: Arith, a: real, k: nat): real { ar.rnd(a / Pow2(k)) }

  /** mpfr_sqrt */
  function Sqrt(ar: Arith, a: real): real { ar.root(a) }

  /** Every result of a rounded operation is representable. */
  lemma RoundedIsRepresentable(ar: Arith, v: real)
    requires IsRounding(ar)
    ensures Representable(ar, ar.rnd(v))
  {
  }

  /** Exact arithmetic is a rounding in the sense of `IsRounding`. */
  lemma ExactIsRounding(ar: Arith)
    requires Exact(ar)
    ensures IsRounding(ar)
  {
  }
}
