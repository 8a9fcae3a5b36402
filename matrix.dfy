/**
  Row-major N x N matrices (MPFRMatrix) and the index arithmetic they rest on.

  Entry (i, j) of an n x n matrix is stored at k = i*n + j. The lemmas below say that
  this layout is in bounds, strictly increasing in (i, j) taken lexicographically, and
  covers every index below n*n, so a loop that walks (i, j) in order with a running
  index k writes each entry exactly once.
*/
module Matrices {
  import opened Scalars

  /** NUM_VARS: the dimension of the optimisation problem. */
  const NumVars: nat := 136

  lemma MulMono(a: nat, b: nat, n: nat)
    requires a <= b
    ensures a * n <= b * n
  {
  }

  /** (i, j) before (i2, j2) in row-major order gives a smaller flat index. */
  lemma RowMajorOrder(n: nat, i: nat, j: nat, i2: nat, j2: nat)
    requires j < n && j2 < n
    requires i < i2 || (i == i2 && j < j2)
    ensures i * n + j < i2 * n + j2
  {
    if i < i2 {
      MulMono(i + 1, i2, n);
      assert (i + 1) * n == i * n + n;
    }
  }

  /** Every entry of an n x n matrix lies below n*n. */
  lemma RowMajorBound(n: nat, i: nat, j: nat)
    requires i < n && j < n
    ensures i * n + j < n * n
  {
    MulMono(i + 1, n, n);
    assert (i + 1) * n == i * n + n;
  }

  /** Every flat index below n*n is the index of exactly one entry (k / n, k % n). */
  lemma RowMajorCover(n: nat, k: nat)
    requires k < n * n
    ensures k / n < n && k % n < n && k == (k / n) * n + k % n
  {
    if k / n >= n {
      MulMono(n, k / n, n);
    }
  }

  /** Distinct entries have distinct flat indices. */
  lemma RowMajorInjective(n: nat, i: nat, j: nat, i2: nat, j2: nat)
    requires i < n && j < n && i2 < n && j2 < n
    requires i * n + j == i2 * n + j2
    ensures i == i2 && j == j2
  {
    if i < i2 || (i == i2 && j < j2) {
      RowMajorOrder(n, i, j, i2, j2);
    } else if i2 < i || (i == i2 && j2 < j) {
      RowMajorOrder(n, i2, j2, i, j);
    }
  }

  /** Entry (i, j) of the row-major n x n matrix `m`. */
  function At(m: seq<real>, n: nat, i: nat, j: nat): real
    requires |m| == n * n && i < n && j < n
  {
    RowMajorBound(n, i, j);
    m[i * n + j]
  }

  /** Row i of the row-major n x n matrix `m`. */
  function Row(m: seq<real>, n: nat, i: nat): (r: seq<real>)
    requires |m| == n * n && i < n
    ensures |r| == n && forall j :: 0 <= j < n ==> r[j] == At(m, n, i, j)
  {
    RowMajorBound(n, i, 0);
    assert i * n + n == (i + 1) * n;
    MulMono(i + 1, n, n);
    m[i * n .. i * n + n]
  }

  function Delta(i: nat, j: nat): real
  {
    if i == j then 1.0 else 0.0
  }

  ghost predicate IsIdentity(m: seq<real>, n: nat)
  {
    |m| == n * n && forall i, j :: 0 <= i < n && 0 <= j < n ==> At(m, n, i, j) == Delta(i, j)
  }

  ghost predicate IsSymmetric(m: seq<real>, n: nat)
    requires |m| == n * n
  {
    forall i, j :: 0 <= i < n && 0 <= j < n ==> At(m, n, i, j) == At(m, n, j, i)
  }

  /** Two matrices that agree on every entry (i, j) are equal as flat sequences. */
  lemma EntrywiseEqual(m1: seq<real>, m2: seq<real>, n: nat)
    requires |m1| == n * n && |m2| == n * n
    requires forall i, j :: 0 <= i < n && 0 <= j < n ==> At(m1, n, i, j) == At(m2, n, i, j)
    ensures m1 == m2
  {
    forall k | 0 <= k < n * n ensures m1[k] == m2[k] {
      RowMajorCover(n, k);
      assert At(m1, n, k / n, k % n) == At(m2, n, k / n, k % n);
    }
  }

  /**
    The identity is determined entry by entry, so whatever a matrix held before,
    setting it to the identity gives the same result, and doing it twice is the same
    as doing it once.
  */
  lemma IdentityUnique(m1: seq<real>, m2: seq<real>, n: nat)
    requires IsIdentity(m1, n) && IsIdentity(m2, n)
    ensures m1 == m2
  {
    EntrywiseEqual(m1, m2, n);
  }

  lemma IdentityIsSymmetric(m: seq<real>, n: nat)
    requires IsIdentity(m, n)
    ensures IsSymmetric(m, n)
  {
  }

  class Matrix {
    const entries: array<real>

    /** The constructor leaves the entries unspecified (MPFR initialises them to NaN). */
    constructor ()
      ensures fresh(entries) && entries.Length == NumVars * NumVars
    {
      entries := new real[NumVars * NumVars];
    }

    /** set_identity_matrix: a nested loop over (i, j) with a running flat index k. */
    method SetIdentityMatrix()
      requires entries.Length == NumVars * NumVars
      modifies entries
      ensures IsIdentity(entries[..], NumVars)
    {
      var n := NumVars;
      var i, k := 0, 0;
      while i < n
        invariant 0 <= i <= n && k == i * n
        invariant forall i', j' :: 0 <= i' < i && 0 <= j' < n ==> At(entries[..], n, i', j') == Delta(i', j')
      {
        var j := 0;
        while j < n
          invariant 0 <= j <= n && k == i * n + j
          invariant forall i', j' :: 0 <= i' < i && 0 <= j' < n ==> At(entries[..], n, i', j') == Delta(i', j')
          invariant forall j' :: 0 <= j' < j ==> At(entries[..], n, i, j') == Delta(i, j')
        {
          entries[k] := if i == j then 1.0 else 0.0;
          j, k := j + 1, k + 1;
        }
        i := i + 1;
      }
    }
  }
}
