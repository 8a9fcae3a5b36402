/**
  The free-standing linear-algebra routines (linalg_subroutines) over raw arrays of
  scalars with an explicit length n. They compute the same values as the methods of
  `Vector` and `Matrix`, and are specified by the same functions.
*/
module LinalgSubroutines {
  import opened Scalars
  import opened Matrices
  import opened Vectors

  /** elementwise_equal: the first n entries agree; true for n = 0. */
  method ElementwiseEqual(n: nat, v: array<real>, w: array<real>) returns (eq: bool)
    requires n <= v.Length && n <= w.Length
    ensures eq <==> v[..n] == w[..n]
  {
    var i := 0;
    while i < n
      invariant 0 <= i <= n
      invariant v[..i] == w[..i]
    {
      if v[i] != w[i] {
        assert v[..n][i] != w[..n][i];
        return false;
      }
      i := i + 1;
    }
    return true;
  }

  /**
    identity_matrix: writes entry (i, j) at k = i*n + j for all i, j < n, and nothing
    at or beyond n*n.
  */
  method IdentityMatrix(mat: array<real>, n: nat)
    requires n * n <= mat.Length
    modifies mat
    ensures IsIdentity(mat[..n * n], n)
    ensures mat[n * n..] == old(mat[n * n..])
  {
    var k := 0;
    var i := 0;
    while i < n
      invariant 0 <= i <= n && k == i * n
      invariant forall i', j' :: 0 <= i' < i && 0 <= j' < n ==> At(mat[..n * n], n, i', j') == Delta(i', j')
      invariant mat[n * n..] == old(mat[n * n..])
    {
      var j := 0;
      while j < n
        invariant 0 <= j <= n && k == i * n + j
        invariant forall i', j' :: 0 <= i' < i && 0 <= j' < n ==> At(mat[..n * n], n, i', j') == Delta(i', j')
        invariant forall j' :: 0 <= j' < j ==> At(mat[..n * n], n, i, j') == Delta(i, j')
        invariant mat[n * n..] == old(mat[n * n..])
      {
        RowMajorBound(n, i, j);
        ghost var before := mat[..n * n];
        mat[k] := if i == j then 1.0 else 0.0;
        assert mat[..n * n] == before[k := Delta(i, j)];
        WriteKeepsEarlier(before, n, i, j, Delta(i, j));
        j, k := j + 1, k + 1;
      }
      assert k == (i + 1) * n;
      i := i + 1;
    }
  }

  /** Writing entry (i, j) leaves every entry before it in row-major order unchanged. */
  lemma WriteKeepsEarlier(m: seq<real>, n: nat, i: nat, j: nat, x: real)
    requires |m| == n * n && i < n && j < n
    ensures i * n + j < n * n
    ensures At(m[i * n + j := x], n, i, j) == x
    ensures forall i', j' :: 0 <= i' < n && 0 <= j' < n && (i' < i || (i' == i && j' < j)) ==>
      At(m[i * n + j := x], n, i', j') == At(m, n, i', j')
  {
    RowMajorBound(n, i, j);
    forall i', j' | 0 <= i' < n && 0 <= j' < n && (i' < i || (i' == i && j' < j))
      ensures At(m[i * n + j := x], n, i', j') == At(m, n, i', j')
    {
      RowMajorOrder(n, i', j', i, j);
    }
  }

  /** l2_norm: reads v[0] before anything else, so n must be at least 1. */
  method L2Norm(ar: Arith, n: nat, v: array<real>) returns (dst: real)
    requires 1 <= n <= v.Length
    ensures dst == NormValue(ar, v[..n])
  {
    dst := Sqr(ar, v[0]);
    var i := 1;
    while i < n
      invariant 1 <= i <= n
      invariant dst == SquaresPrefix(ar, v[..n], i)
    {
      dst := Fma(ar, v[i], v[i], dst);
      i := i + 1;
    }
    dst := Sqrt(ar, dst);
  }

  /**
    matrix_vector_multiply: writes dst[0 .. n) only; dst[i] is row i of `mat` against
    `vec`. The destination must be neither the matrix nor the vector.
  */
  method MatrixVectorMultiply(ar: Arith, dst: array<real>, n: nat, mat: array<real>, vec: array<real>)
    requires n <= dst.Length && n * n <= mat.Length && n <= vec.Length
    requires dst != vec && dst != mat
    modifies dst
    ensures dst[..n] == MatVec(ar, mat[..n * n], vec[..n], n)
    ensures dst[n..] == old(dst[n..])
  {
    ghost var m, v := mat[..n * n], vec[..n];
    var k := 0;
    var i := 0;
    while i < n
      invariant 0 <= i <= n && k == i * n
      invariant forall i' :: 0 <= i' < i ==> dst[i'] == RowDot(ar, m, v, n, i')
      invariant dst[n..] == old(dst[n..])
    {
      RowMajorBound(n, i, 0);
      dst[i] := Mul(ar, mat[k], vec[0]);
      k := k + 1;
      var j := 1;
      while j < n
        invariant 1 <= j <= n && k == i * n + j
        invariant dst[i] == DotPrefix(ar, Row(m, n, i), v, j)
        invariant forall i' :: 0 <= i' < i ==> dst[i'] == RowDot(ar, m, v, n, i')
        invariant dst[n..] == old(dst[n..])
      {
        RowMajorBound(n, i, j);
        assert Row(m, n, i)[j] == mat[k];
        dst[i] := Fma(ar, mat[k], vec[j], dst[i]);
        j, k := j + 1, k + 1;
      }
      assert k == (i + 1) * n;
      i := i + 1;
    }
  }

  /**
    With n = N the free routine and the method of `Vector` compute the same vector:
    both are specified by the same function of the matrix and the vector.
  */
  method AgreesWithVectorMethod(ar: Arith, mat: Matrix, vec: Vector, dst: array<real>, target: Vector)
    requires mat.entries.Length == NumVars * NumVars
    requires vec.entries.Length == NumVars && target.entries.Length == NumVars && dst.Length == NumVars
    requires dst != vec.entries && dst != mat.entries && target.entries != vec.entries
    requires dst != target.entries
    modifies dst, target.entries
    ensures dst[..] == target.entries[..]
  {
    MatrixVectorMultiply(ar, dst, NumVars, mat.entries, vec.entries);
    assert dst[..] == dst[..NumVars];
    assert mat.entries[..NumVars * NumVars] == mat.entries[..];
    assert vec.entries[..NumVars] == vec.entries[..];
    target.SetMatrixVectorMultiply(ar, mat, vec);
  }
}
