/**
  Fixed-length vectors (MPFRVector) and the values their operations compute.

  The functions at the top say what each operation computes, as a function of the
  operands' contents, including the order in which `dot`, `norm` and the matrix-vector
  product accumulate their terms (first term with a multiplication, every following
  term with a fused multiply-add into the running value, in increasing index order).
  The class below does the same work in place on an array, loop by loop, and each of
  its methods is proved against these functions.
*/
module Vectors {
  import opened Scalars
  import opened Matrices

  // ------------------------------------------------------------ what is computed

  /** The running value of a dot product after the terms 0 .. k-1. */
  function DotPrefix(ar: Arith, v: seq<real>, w: seq<real>, k: nat): real
    requires 1 <= k <= |v| && |w| == |v|
  {
    if k == 1 then Mul(ar, v[0], w[0])
    else Fma(ar, v[k - 1], w[k - 1], DotPrefix(ar, v, w, k - 1))
  }

  function Dot(ar: Arith, v: seq<real>, w: seq<real>): real
    requires 1 <= |v| && |w| == |v|
  {
    DotPrefix(ar, v, w, |v|)
  }

  /** The running value of `norm` after the entries 0 .. k-1: a square, then fused updates. */
  function SquaresPrefix(ar: Arith, v: seq<real>, k: nat): real
    requires 1 <= k <= |v|
  {
    if k == 1 then Sqr(ar, v[0])
    else Fma(ar, v[k - 1], v[k - 1], SquaresPrefix(ar, v, k - 1))
  }

  /** The Euclidean norm as `norm` and `l2_norm` compute it: one square root at the end. */
  function NormValue(ar: Arith, v: seq<real>): real
    requires 1 <= |v|
  {
    Sqrt(ar, SquaresPrefix(ar, v, |v|))
  }

  /** Entry i of the product of the row-major n x n matrix `m` with `v`: row i dotted with v. */
  function RowDot(ar: Arith, m: seq<real>, v: seq<real>, n: nat, i: nat): real
    requires 1 <= n && |m| == n * n && |v| == n && i < n
  {
    Dot(ar, Row(m, n, i), v)
  }

  function MatVec(ar: Arith, m: seq<real>, v: seq<real>, n: nat): (r: seq<real>)
    requires |m| == n * n && |v| == n
    ensures |r| == n
  {
    seq(n, i requires 0 <= i < n => RowDot(ar, m, v, n, i))
  }

  function Zero(n: nat): (r: seq<real>)
    ensures |r| == n
  {
    seq(n, i => 0.0)
  }

  function Scaled(ar: Arith, c: real, x: seq<real>): (r: seq<real>)
    ensures |r| == |x|
  {
    seq(|x|, i requires 0 <= i < |x| => Mul(ar, c, x[i]))
  }

  function Sum(ar: Arith, x: seq<real>, y: seq<real>): (r: seq<real>)
    requires |x| == |y|
    ensures |r| == |x|
  {
    seq(|x|, i requires 0 <= i < |x| => Add(ar, x[i], y[i]))
  }

  function Difference(ar: Arith, x: seq<real>, y: seq<real>): (r: seq<real>)
    requires |x| == |y|
    ensures |r| == |x|
  {
    seq(|x|, i requires 0 <= i < |x| => Sub(ar, x[i], y[i]))
  }

  /** a*x + y, one fused multiply-add per entry. */
  function Axpy(ar: Arith, a: real, x: seq<real>, y: seq<real>): (r: seq<real>)
    requires |x| == |y|
    ensures |r| == |x|
  {
    seq(|x|, i requires 0 <= i < |x| => Fma(ar, a, x[i], y[i]))
  }

  /** a*x - y, one fused multiply-subtract per entry. */
  function Axmy(ar: Arith, a: real, x: seq<real>, y: seq<real>): (r: seq<real>)
    requires |x| == |y|
    ensures |r| == |x|
  {
    seq(|x|, i requires 0 <= i < |x| => Fms(ar, a, x[i], y[i]))
  }

  ghost predicate AllRepresentable(ar: Arith, v: seq<real>)
  {
    forall i :: 0 <= i < |v| ==> Representable(ar, v[i])
  }

  // ------------------------------------------------------------ properties

  /** `norm` accumulates exactly as `dot` of a vector with itself does, under any rounding. */
  lemma {:induction false} SquaresAreSelfDot(ar: Arith, v: seq<real>, k: nat)
    requires 1 <= k <= |v|
    ensures SquaresPrefix(ar, v, k) == DotPrefix(ar, v, v, k)
  {
    if k > 1 {
      SquaresAreSelfDot(ar, v, k - 1);
    }
  }

  /** Under any rounding, axpy with a = 1 is the sum and axmy with a = 1 the difference. */
  lemma UnitAxpyIsSum(ar: Arith, x: seq<real>, y: seq<real>)
    requires |x| == |y|
    ensures Axpy(ar, 1.0, x, y) == Sum(ar, x, y)
    ensures Axmy(ar, 1.0, x, y) == Difference(ar, x, y)
  {
  }

  /** A step of length zero along any direction leaves a representable point where it is. */
  lemma ZeroStepKeepsPoint(ar: Arith, dx: seq<real>, x0: seq<real>)
    requires |dx| == |x0| && AllRepresentable(ar, x0)
    ensures Axpy(ar, 0.0, dx, x0) == x0
  {
    forall i | 0 <= i < |x0| ensures Axpy(ar, 0.0, dx, x0)[i] == x0[i] {
      assert 0.0 * dx[i] + x0[i] == x0[i];
    }
  }

  /** Results of rounded operations are representable. */
  lemma AxpyRepresentable(ar: Arith, a: real, x: seq<real>, y: seq<real>)
    requires IsRounding(ar) && |x| == |y|
    ensures AllRepresentable(ar, Axpy(ar, a, x, y))
  {
    forall i | 0 <= i < |x| ensures Representable(ar, Axpy(ar, a, x, y)[i]) {
      RoundedIsRepresentable(ar, a * x[i] + y[i]);
    }
  }

  // ------------------------------------------------------------ exact arithmetic

  /** The exact inner product of the first k entries. */
  function InnerProduct(v: seq<real>, w: seq<real>, k: nat): real
    requires k <= |v| && |w| == |v|
  {
    if k == 0 then 0.0 else InnerProduct(v, w, k - 1) + v[k - 1] * w[k - 1]
  }

  /** In exact arithmetic the fused accumulation of `dot` is the inner product. */
  lemma {:induction false} ExactDotPrefix(ar: Arith, v: seq<real>, w: seq<real>, k: nat)
    requires Exact(ar) && 1 <= k <= |v| && |w| == |v|
    ensures DotPrefix(ar, v, w, k) == InnerProduct(v, w, k)
  {
    if k > 1 {
      ExactDotPrefix(ar, v, w, k - 1);
    }
  }

  lemma ExactDot(ar: Arith, v: seq<real>, w: seq<real>)
    requires Exact(ar) && 1 <= |v| && |w| == |v|
    ensures Dot(ar, v, w) == InnerProduct(v, w, |v|)
  {
    ExactDotPrefix(ar, v, w, |v|);
  }

  lemma {:induction false} InnerProductSymmetric(v: seq<real>, w: seq<real>, k: nat)
    requires k <= |v| && |w| == |v|
    ensures InnerProduct(v, w, k) == InnerProduct(w, v, k)
  {
    if k > 0 {
      InnerProductSymmetric(v, w, k - 1);
    }
  }

  /** Linearity in the first argument: if r = a + b u + c x entrywise, the products follow. */
  lemma {:induction false} InnerProductLinear(r: seq<real>, a: seq<real>, u: seq<real>, x: seq<real>,
                                               y: seq<real>, b: real, c: real, k: nat)
    requires k <= |r| && |a| == |r| && |u| == |r| && |x| == |r| && |y| == |r|
    requires forall j :: 0 <= j < |r| ==> r[j] == Combination(a[j], b, u[j], c, x[j])
    ensures InnerProduct(r, y, k)
      == Combination(InnerProduct(a, y, k), b, InnerProduct(u, y, k), c, InnerProduct(x, y, k))
  {
    if k > 0 {
      InnerProductLinear(r, a, u, x, y, b, c, k - 1);
      var j := k - 1;
      CombinationTimes(a[j], b, u[j], c, x[j], y[j]);
      CombinationSum(InnerProduct(a, y, j), b, InnerProduct(u, y, j), c, InnerProduct(x, y, j),
                     a[j] * y[j], u[j] * y[j], x[j] * y[j]);
    }
  }

  lemma CombinationTimes(p: real, a: real, q: real, b: real, r: real, y: real)
    ensures Combination(p, a, q, b, r) * y == Combination(p * y, a, q * y, b, r * y)
  {
  }

  lemma CombinationSum(p: real, a: real, q: real, b: real, r: real, p': real, q': real, r': real)
    ensures Combination(p, a, q, b, r) + Combination(p', a, q', b, r')
         == Combination(p + p', a, q + q', b, r + r')
  {
  }

  /** p + a q + b r: a linear combination of three values. */
  function Combination(p: real, a: real, q: real, b: real, r: real): real
  {
    p + a * q + b * r
  }

  /** p - b q: p shifted by b times q. */
  function Shift(p: real, b: real, q: real): real
  {
    p - b * q
  }

  /** The inner product with the i-th unit vector picks out entry i. */
  lemma {:induction false} InnerProductWithUnit(e: seq<real>, v: seq<real>, i: nat, k: nat)
    requires k <= |e| && |v| == |e| && i < |e|
    requires forall j :: 0 <= j < |e| ==> e[j] == Delta(i, j)
    ensures InnerProduct(e, v, k) == if i < k then v[i] else 0.0
  {
    if k > 0 {
      InnerProductWithUnit(e, v, i, k - 1);
    }
  }

  /** In exact arithmetic, multiplying the identity matrix by v gives back v. */
  lemma ExactIdentityTimes(ar: Arith, m: seq<real>, v: seq<real>, n: nat)
    requires Exact(ar) && 1 <= n && IsIdentity(m, n) && |v| == n
    ensures MatVec(ar, m, v, n) == v
  {
    forall i | 0 <= i < n ensures MatVec(ar, m, v, n)[i] == v[i] {
      var r := Row(m, n, i);
      ExactDot(ar, r, v);
      InnerProductWithUnit(r, v, i, n);
    }
  }

  // ------------------------------------------------------------ the container

  class Vector {
    const entries: array<real>

    /** The constructor leaves the entries unspecified (MPFR initialises them to NaN). */
    constructor ()
      ensures fresh(entries) && entries.Length == NumVars
    {
      entries := new real[NumVars];
    }

    /** The copy constructor: fresh storage holding the same entries. */
    constructor Copy(rhs: Vector)
      requires rhs.entries.Length == NumVars
      ensures fresh(entries) && entries[..] == rhs.entries[..]
    {
      entries := new real[NumVars];
      new;
      var i := 0;
      while i < NumVars
        invariant 0 <= i <= NumVars
        invariant forall k :: 0 <= k < i ==> entries[k] == rhs.entries[k]
      {
        entries[i] := rhs.entries[i];
        i := i + 1;
      }
    }

    /** Copy assignment: the entries of `rhs` are copied, `rhs` keeps its own. */
    method Assign(rhs: Vector)
      requires entries.Length == NumVars && rhs.entries.Length == NumVars
      modifies entries
      ensures entries[..] == old(rhs.entries[..])
      ensures rhs.entries[..] == old(rhs.entries[..])
    {
      var i := 0;
      while i < NumVars
        invariant 0 <= i <= NumVars
        invariant forall k :: 0 <= k < i ==> entries[k] == old(rhs.entries[k])
        invariant forall k :: 0 <= k < NumVars ==> rhs.entries[k] == old(rhs.entries[k])
      {
        entries[i] := rhs.entries[i];
        i := i + 1;
      }
    }

    /** swap: the two vectors exchange their contents. */
    method Swap(rhs: Vector)
      requires entries.Length == NumVars && rhs.entries.Length == NumVars
      modifies entries, rhs.entries
      ensures entries[..] == old(rhs.entries[..])
      ensures rhs.entries[..] == old(entries[..])
    {
      var i := 0;
      while i < NumVars
        invariant 0 <= i <= NumVars
        invariant forall k :: 0 <= k < i ==> entries[k] == old(rhs.entries[k]) && rhs.entries[k] == old(entries[k])
        invariant forall k :: i <= k < NumVars ==> entries[k] == old(entries[k]) && rhs.entries[k] == old(rhs.entries[k])
      {
        var t := entries[i];
        entries[i] := rhs.entries[i];
        rhs.entries[i] := t;
        i := i + 1;
      }
    }

    /** operator==: all entries compare equal; stops at the first difference. */
    method Equals(rhs: Vector) returns (eq: bool)
      requires entries.Length == NumVars && rhs.entries.Length == NumVars
      ensures eq <==> entries[..] == rhs.entries[..]
    {
      var i := 0;
      while i < NumVars
        invariant 0 <= i <= NumVars
        invariant entries[..i] == rhs.entries[..i]
      {
        if entries[i] != rhs.entries[i] {
          assert entries[..][i] != rhs.entries[..][i];
          return false;
        }
        i := i + 1;
      }
      assert entries[..] == entries[..NumVars];
      return true;
    }

    method SetZero()
      requires entries.Length == NumVars
      modifies entries
      ensures entries[..] == Zero(NumVars)
    {
      var i := 0;
      while i < NumVars
        invariant 0 <= i <= NumVars
        invariant forall k :: 0 <= k < i ==> entries[k] == 0.0
      {
        entries[i] := 0.0;
        i := i + 1;
      }
    }

    /** scale: every entry e becomes coeff * e. */
    method Scale(ar: Arith, coeff: real)
      requires entries.Length == NumVars
      modifies entries
      ensures entries[..] == Scaled(ar, coeff, old(entries[..]))
    {
      var i := 0;
      while i < NumVars
        invariant 0 <= i <= NumVars
        invariant forall k :: 0 <= k < i ==> entries[k] == Mul(ar, coeff, old(entries[k]))
        invariant forall k :: i <= k < NumVars ==> entries[k] == old(entries[k])
      {
        entries[i] := Mul(ar, coeff, entries[i]);
        i := i + 1;
      }
    }

    /** norm: the square of entry 0, fused updates for entries 1 .. N-1, one square root. */
    method Norm(ar: Arith) returns (dst: real)
      requires entries.Length == NumVars
      ensures dst == NormValue(ar, entries[..])
    {
      dst := Sqr(ar, entries[0]);
      var i := 1;
      while i < NumVars
        invariant 1 <= i <= NumVars
        invariant dst == SquaresPrefix(ar, entries[..], i)
      {
        dst := Fma(ar, entries[i], entries[i], dst);
        i := i + 1;
      }
      dst := Sqrt(ar, dst);
    }

    /**
      negate_and_normalize: tmp := norm, tmp := -1 / tmp, then scale by tmp. A zero
      norm would make tmp infinite and the entries NaN, which callers treat as fatal.
    */
    method NegateAndNormalize(ar: Arith) returns (tmp: real)
      requires entries.Length == NumVars
      requires NormValue(ar, entries[..]) != 0.0
      modifies entries
      ensures tmp == Div(ar, -1.0, NormValue(ar, old(entries[..])))
      ensures entries[..] == Scaled(ar, tmp, old(entries[..]))
    {
      tmp := Norm(ar);
      tmp := Div(ar, -1.0, tmp);
      Scale(ar, tmp);
    }

    /** set_add: entry i of the target from entry i of x and y only, so x or y may be the target. */
    method SetAdd(ar: Arith, x: Vector, y: Vector)
      requires entries.Length == NumVars && x.entries.Length == NumVars && y.entries.Length == NumVars
      modifies entries
      ensures entries[..] == Sum(ar, old(x.entries[..]), old(y.entries[..]))
    {
      var i := 0;
      while i < NumVars
        invariant 0 <= i <= NumVars
        invariant forall k :: 0 <= k < i ==> entries[k] == Add(ar, old(x.entries[k]), old(y.entries[k]))
        invariant forall k :: i <= k < NumVars ==> x.entries[k] == old(x.entries[k]) && y.entries[k] == old(y.entries[k])
      {
        entries[i] := Add(ar, x.entries[i], y.entries[i]);
        i := i + 1;
      }
    }

    method SetSub(ar: Arith, x: Vector, y: Vector)
      requires entries.Length == NumVars && x.entries.Length == NumVars && y.entries.Length == NumVars
      modifies entries
      ensures entries[..] == Difference(ar, old(x.entries[..]), old(y.entries[..]))
    {
      var i := 0;
      while i < NumVars
        invariant 0 <= i <= NumVars
        invariant forall k :: 0 <= k < i ==> entries[k] == Sub(ar, old(x.entries[k]), old(y.entries[k]))
        invariant forall k :: i <= k < NumVars ==> x.entries[k] == old(x.entries[k]) && y.entries[k] == old(y.entries[k])
      {
        entries[i] := Sub(ar, x.entries[i], y.entries[i]);
        i := i + 1;
      }
    }

    method SetAxpy(ar: Arith, a: real, x: Vector, y: Vector)
      requires entries.Length == NumVars && x.entries.Length == NumVars && y.entries.Length == NumVars
      modifies entries
      ensures entries[..] == Axpy(ar, a, old(x.entries[..]), old(y.entries[..]))
    {
      var i := 0;
      while i < NumVars
        invariant 0 <= i <= NumVars
        invariant forall k :: 0 <= k < i ==> entries[k] == Fma(ar, a, old(x.entries[k]), old(y.entries[k]))
        invariant forall k :: i <= k < NumVars ==> x.entries[k] == old(x.entries[k]) && y.entries[k] == old(y.entries[k])
      {
        entries[i] := Fma(ar, a, x.entries[i], y.entries[i]);
        i := i + 1;
      }
    }

    method SetAxmy(ar: Arith, a: real, x: Vector, y: Vector)
      requires entries.Length == NumVars && x.entries.Length == NumVars && y.entries.Length == NumVars
      modifies entries
      ensures entries[..] == Axmy(ar, a, old(x.entries[..]), old(y.entries[..]))
    {
      var i := 0;
      while i < NumVars
        invariant 0 <= i <= NumVars
        invariant forall k :: 0 <= k < i ==> entries[k] == Fms(ar, a, old(x.entries[k]), old(y.entries[k]))
        invariant forall k :: i <= k < NumVars ==> x.entries[k] == old(x.entries[k]) && y.entries[k] == old(y.entries[k])
      {
        entries[i] := Fms(ar, a, x.entries[i], y.entries[i]);
        i := i + 1;
      }
    }

    /**
      set_matrix_vector_multiply: entry i accumulates row i of `mat` against `vec`, the
      running index k walking the matrix in row-major order. The target must not be
      `vec`, whose entries it reads for every row.
    */
    method SetMatrixVectorMultiply(ar: Arith, mat: Matrix, vec: Vector)
      requires entries.Length == NumVars && vec.entries.Length == NumVars
      requires mat.entries.Length == NumVars * NumVars
      requires vec.entries != entries
      modifies entries
      ensures entries[..] == MatVec(ar, mat.entries[..], vec.entries[..], NumVars)
    {
      var n := NumVars;
      ghost var m, v := mat.entries[..], vec.entries[..];
      var i, k := 0, 0;
      while i < n
        invariant 0 <= i <= n && k == i * n
        invariant forall i' :: 0 <= i' < i ==> entries[i'] == RowDot(ar, m, v, n, i')
      {
        entries[i] := Mul(ar, mat.entries[k], vec.entries[0]);
        k := k + 1;
        var j := 1;
        while j < n
          invariant 1 <= j <= n && k == i * n + j
          invariant entries[i] == DotPrefix(ar, Row(m, n, i), v, j)
          invariant forall i' :: 0 <= i' < i ==> entries[i'] == RowDot(ar, m, v, n, i')
        {
          entries[i] := Fma(ar, mat.entries[k], vec.entries[j], entries[i]);
          j, k := j + 1, k + 1;
        }
        i := i + 1;
      }
    }
  }

  /** Swapping twice restores both vectors. */
  method SwapTwice(v: Vector, w: Vector)
    requires v.entries.Length == NumVars && w.entries.Length == NumVars
    modifies v.entries, w.entries
    ensures v.entries[..] == old(v.entries[..]) && w.entries[..] == old(w.entries[..])
  {
    v.Swap(w);
    v.Swap(w);
  }
}
