/**
  The rank-two inverse-Hessian update (bfgs_subroutines).

  With H the current inverse Hessian, y the gradient delta, d the unit step direction
  and t the step size, the update computes in this order

    kappa  = H y                      (in full, before H is touched)
    theta  = y . kappa
    lambda = (y . d) t
    sigma  = (lambda + theta) / lambda^2
    beta   = t lambda sigma / 2
    kappa'_i = -(beta d_i - kappa_i)  for i < n
    alpha  = -t / lambda
    H_k   += alpha (kappa'_i d_j + d_i kappa'_j)  for k = i*n + j, i, j < n

  `Coefficients` gives these values as functions of the inputs; `UpdateInverseHessian`
  computes them in place and is proved against them. In exact arithmetic the update
  keeps a symmetric matrix symmetric and satisfies the secant condition H' y = t d.
*/
module BfgsSubroutines {
  import opened Scalars
  import opened Matrices
  import opened Vectors

  /** dot: v[0]*w[0], then one fused multiply-add per following index, in increasing order. */
  method DotProduct(ar: Arith, v: Vector, w: Vector) returns (dst: real)
    requires v.entries.Length == NumVars && w.entries.Length == NumVars
    ensures dst == Dot(ar, v.entries[..], w.entries[..])
  {
    dst := Mul(ar, v.entries[0], w.entries[0]);
    var i := 1;
    while i < NumVars
      invariant 1 <= i <= NumVars
      invariant dst == DotPrefix(ar, v.entries[..], w.entries[..], i)
    {
      dst := Fma(ar, v.entries[i], w.entries[i], dst);
      i := i + 1;
    }
  }

  datatype Coefficients = Coefficients(
    kappa: seq<real>, theta: real, lambda: real, sigma: real, beta: real, alpha: real)

  ghost predicate Shaped(h: seq<real>, y: seq<real>, d: seq<real>)
  {
    1 <= |y| && |d| == |y| && |h| == |y| * |y|
  }

  /** lambda = (y . d) t, the curvature along the step. */
  function Lambda(ar: Arith, y: seq<real>, t: real, d: seq<real>): real
    requires 1 <= |y| && |d| == |y|
  {
    Mul(ar, Dot(ar, y, d), t)
  }

  /** The update divides by lambda and by lambda^2; both must be nonzero. */
  predicate Defined(ar: Arith, y: seq<real>, t: real, d: seq<real>)
    requires 1 <= |y| && |d| == |y|
  {
    Lambda(ar, y, t, d) != 0.0 && Sqr(ar, Lambda(ar, y, t, d)) != 0.0
  }

  /** The scalars of the update and the vector kappa = H y, as the source computes them. */
  function UpdateCoefficients(ar: Arith, h: seq<real>, y: seq<real>, t: real, d: seq<real>): (c: Coefficients)
    requires Shaped(h, y, d) && Defined(ar, y, t, d)
    ensures |c.kappa| == |y| && c.lambda != 0.0
  {
    var kappa := MatVec(ar, h, y, |y|);
    var theta := Dot(ar, y, kappa);
    var lambda := Lambda(ar, y, t, d);
    var sigma := Div(ar, Add(ar, lambda, theta), Sqr(ar, lambda));
    var beta := Div2(ar, Mul(ar, Mul(ar, t, lambda), sigma), 1);
    var alpha := -Div(ar, t, lambda);
    Coefficients(kappa, theta, lambda, sigma, beta, alpha)
  }

  /** kappa after the first loop: entries below n shifted by -beta d_i, the rest as they were. */
  function ShiftedKappa(ar: Arith, kappa: seq<real>, beta: real, d: seq<real>, n: nat): (r: seq<real>)
    requires |d| == |kappa|
    ensures |r| == |kappa|
  {
    seq(|kappa|, i requires 0 <= i < |kappa| => if i < n then -Fms(ar, beta, d[i], kappa[i]) else kappa[i])
  }

  /** The workspace kappa after the update: H y with its first n entries shifted. */
  function UpdatedKappa(ar: Arith, h: seq<real>, y: seq<real>, t: real, d: seq<real>, n: nat): (r: seq<real>)
    requires Shaped(h, y, d) && Defined(ar, y, t, d)
    ensures |r| == |y|
  {
    ShiftedKappa(ar, UpdateCoefficients(ar, h, y, t, d).kappa, UpdateCoefficients(ar, h, y, t, d).beta, d, n)
  }

  /** The first loop of update_inverse_hessian: kappa_i := -(beta d_i - kappa_i) for i < n. */
  method ShiftKappa(ar: Arith, kappa: Vector, beta: real, d: Vector, n: nat)
    requires kappa.entries.Length == NumVars && d.entries.Length == NumVars && n <= NumVars
    requires kappa.entries != d.entries
    modifies kappa.entries
    ensures kappa.entries[..] == ShiftedKappa(ar, old(kappa.entries[..]), beta, d.entries[..], n)
  {
    ghost var kappa0 := kappa.entries[..];
    var i := 0;
    while i < n
      invariant 0 <= i <= n
      invariant forall k :: 0 <= k < i ==> kappa.entries[k] == -Fms(ar, beta, d.entries[k], kappa0[k])
      invariant forall k :: i <= k < NumVars ==> kappa.entries[k] == kappa0[k]
    {
      kappa.entries[i] := -Fms(ar, beta, d.entries[i], kappa.entries[i]);
      i := i + 1;
    }
  }

  /** Entry (i, j) of the update: H_k + alpha (kappa'_i d_j + d_i kappa'_j), as fused operations. */
  function UpdatedEntry(ar: Arith, hij: real, alpha: real, kp: seq<real>, d: seq<real>, i: nat, j: nat): real
    requires |kp| == |d| && i < |d| && j < |d|
  {
    Fma(ar, alpha, Fma(ar, d[i], kp[j], Mul(ar, kp[i], d[j])), hij)
  }

  lemma SquareMono(n: nat, m: nat)
    requires n <= m
    ensures n * n <= m * m
  {
    MulMono(n, m, n);
    assert n * m <= m * m;
  }

  /** h' is h plus alpha (kp_i d_j + d_i kp_j), entry by entry, as fused operations. */
  ghost predicate IsRankTwoUpdate(ar: Arith, h: seq<real>, h': seq<real>, n: nat, alpha: real, kp: seq<real>, d: seq<real>)
    requires |h| == n * n && |h'| == n * n && |kp| == |d| && n <= |d|
  {
    forall i, j :: 0 <= i < n && 0 <= j < n ==>
      At(h', n, i, j) == UpdatedEntry(ar, At(h, n, i, j), alpha, kp, d, i, j)
  }

  /** The matrix after the update, as the n x n view of its first n*n entries. */
  ghost predicate IsUpdate(ar: Arith, h: seq<real>, h': seq<real>, n: nat, y: seq<real>, t: real, d: seq<real>)
    requires Shaped(h, y, d) && Defined(ar, y, t, d) && n <= |y| && |h'| == |h|
  {
    SquareMono(n, |y|);
    IsRankTwoUpdate(ar, h[..n * n], h'[..n * n], n, UpdateCoefficients(ar, h, y, t, d).alpha,
                    UpdatedKappa(ar, h, y, t, d, n), d)
  }

  /**
    update_inverse_hessian. The workspace kappa is the caller's (the source keeps it in
    a static). The scalars need only lambda != 0 and lambda^2 != 0; the loops run to n,
    while kappa = H y and both dot products use all NUM_VARS entries, so the result is
    the BFGS update only when n = NUM_VARS.
  */
  method UpdateInverseHessian(ar: Arith, invHess: Matrix, n: nat, deltaGradient: Vector,
                              stepSize: real, stepDirection: Vector, kappa: Vector)
    requires invHess.entries.Length == NumVars * NumVars && n <= NumVars
    requires deltaGradient.entries.Length == NumVars && stepDirection.entries.Length == NumVars
    requires kappa.entries.Length == NumVars
    requires kappa.entries != deltaGradient.entries && kappa.entries != stepDirection.entries
    requires Defined(ar, deltaGradient.entries[..], stepSize, stepDirection.entries[..])
    modifies invHess.entries, kappa.entries
    ensures n * n <= NumVars * NumVars
    ensures IsUpdate(ar, old(invHess.entries[..]), invHess.entries[..], n,
                     deltaGradient.entries[..], stepSize, stepDirection.entries[..])
    ensures invHess.entries[n * n..] == old(invHess.entries[n * n..])
    ensures kappa.entries[..] == UpdatedKappa(ar, old(invHess.entries[..]), deltaGradient.entries[..],
                                              stepSize, stepDirection.entries[..], n)
  {
    ghost var h, y, d := invHess.entries[..], deltaGradient.entries[..], stepDirection.entries[..];
    ghost var c := UpdateCoefficients(ar, h, y, stepSize, d);
    SquareMono(n, NumVars);

    var lambda, beta := KappaAndScalars(ar, invHess, deltaGradient, stepSize, stepDirection, kappa);
    ShiftKappa(ar, kappa, beta, stepDirection, n);
    ghost var kp := kappa.entries[..];
    assert kp == UpdatedKappa(ar, h, y, stepSize, d, n);

    var alpha := Div(ar, stepSize, lambda);
    alpha := -alpha;
    assert alpha == c.alpha;

    AddRankTwoCorrection(ar, invHess, n, kappa, stepDirection, alpha);
  }

  /**
    The part of update_inverse_hessian before its loops: kappa = H y in the workspace,
    then theta, lambda, sigma and beta, in the source's order of operations.
  */
  method KappaAndScalars(ar: Arith, invHess: Matrix, deltaGradient: Vector, stepSize: real,
                         stepDirection: Vector, kappa: Vector) returns (lambda: real, beta: real)
    requires invHess.entries.Length == NumVars * NumVars
    requires deltaGradient.entries.Length == NumVars && stepDirection.entries.Length == NumVars
    requires kappa.entries.Length == NumVars
    requires kappa.entries != deltaGradient.entries && kappa.entries != stepDirection.entries
    requires Defined(ar, deltaGradient.entries[..], stepSize, stepDirection.entries[..])
    modifies kappa.entries
    ensures var c := UpdateCoefficients(ar, invHess.entries[..], deltaGradient.entries[..], stepSize,
                                        stepDirection.entries[..]);
      kappa.entries[..] == c.kappa && lambda == c.lambda && beta == c.beta
  {
    kappa.SetMatrixVectorMultiply(ar, invHess, deltaGradient);
    var theta := DotProduct(ar, deltaGradient, kappa);
    lambda := DotProduct(ar, deltaGradient, stepDirection);
    lambda := Mul(ar, lambda, stepSize);
    beta := Sqr(ar, lambda);
    var sigma := Add(ar, lambda, theta);
    sigma := Div(ar, sigma, beta);
    beta := Mul(ar, stepSize, lambda);
    beta := Mul(ar, beta, sigma);
    beta := Div2(ar, beta, 1);
  }

  /**
    The double loop of update_inverse_hessian: entry k = i*n + j, for i, j < n in
    row-major order, gains alpha (kappa'_i d_j + d_i kappa'_j); nothing else changes.
  */
  method AddRankTwoCorrection(ar: Arith, invHess: Matrix, n: nat, kappa: Vector, d: Vector, alpha: real)
    requires invHess.entries.Length == NumVars * NumVars && n <= NumVars
    requires kappa.entries.Length == NumVars && d.entries.Length == NumVars
    modifies invHess.entries
    ensures n * n <= NumVars * NumVars
    ensures IsRankTwoUpdate(ar, old(invHess.entries[..n * n]), invHess.entries[..n * n], n,
                            alpha, kappa.entries[..], d.entries[..])
    ensures invHess.entries[n * n..] == old(invHess.entries[n * n..])
  {
    SquareMono(n, NumVars);
    ghost var h, kp, dd := invHess.entries[..n * n], kappa.entries[..], d.entries[..];
    var k := 0;
    var i := 0;
    while i < n
      invariant 0 <= i <= n && k == i * n
      invariant invHess.entries[n * n..] == old(invHess.entries[n * n..])
      invariant forall i', j' :: 0 <= i' < i && 0 <= j' < n ==>
        At(invHess.entries[..n * n], n, i', j') == UpdatedEntry(ar, At(h, n, i', j'), alpha, kp, dd, i', j')
      invariant forall i', j' :: i <= i' < n && 0 <= j' < n ==>
        At(invHess.entries[..n * n], n, i', j') == At(h, n, i', j')
    {
      var j := 0;
      while j < n
        invariant 0 <= j <= n && k == i * n + j
        invariant invHess.entries[n * n..] == old(invHess.entries[n * n..])
        invariant forall i', j' :: 0 <= i' < i && 0 <= j' < n ==>
          At(invHess.entries[..n * n], n, i', j') == UpdatedEntry(ar, At(h, n, i', j'), alpha, kp, dd, i', j')
        invariant forall j' :: 0 <= j' < j ==>
          At(invHess.entries[..n * n], n, i, j') == UpdatedEntry(ar, At(h, n, i, j'), alpha, kp, dd, i, j')
        invariant forall i', j' :: 0 <= i' < n && 0 <= j' < n && (i' > i || (i' == i && j' >= j)) ==>
          At(invHess.entries[..n * n], n, i', j') == At(h, n, i', j')
      {
        RowMajorBound(n, i, j);
        var beta := Mul(ar, kappa.entries[i], d.entries[j]);
        beta := Fma(ar, d.entries[i], kappa.entries[j], beta);
        ghost var before := invHess.entries[..n * n];
        ghost var x := UpdatedEntry(ar, At(h, n, i, j), alpha, kp, dd, i, j);
        invHess.entries[k] := Fma(ar, alpha, beta, invHess.entries[k]);
        assert invHess.entries[..n * n] == before[k := x];
        WriteOneEntry(before, n, i, j, x);
        j, k := j + 1, k + 1;
      }
      assert k == (i + 1) * n;
      i := i + 1;
    }
  }

  /** Writing entry (i, j) of a row-major matrix changes that entry and no other. */
  lemma WriteOneEntry(m: seq<real>, n: nat, i: nat, j: nat, x: real)
    requires |m| == n * n && i < n && j < n
    ensures i * n + j < n * n
    ensures At(m[i * n + j := x], n, i, j) == x
    ensures forall i', j' :: 0 <= i' < n && 0 <= j' < n && (i' != i || j' != j) ==>
      At(m[i * n + j := x], n, i', j') == At(m, n, i', j')
  {
    RowMajorBound(n, i, j);
    forall i', j' | 0 <= i' < n && 0 <= j' < n && (i' != i || j' != j)
      ensures At(m[i * n + j := x], n, i', j') == At(m, n, i', j')
    {
      RowMajorBound(n, i', j');
      if i' * n + j' == i * n + j {
        RowMajorInjective(n, i, j, i', j');
      }
    }
  }

  // ------------------------------------------------------------ exact arithmetic

  /**
    Without rounding the scalars are the textbook ones: with s = y . d,
    lambda = s t, theta = y . (H y), sigma = (lambda + theta) / lambda^2,
    beta = t lambda sigma / 2 and alpha = -t / lambda.
  */
  lemma ExactCoefficients(ar: Arith, h: seq<real>, y: seq<real>, t: real, d: seq<real>)
    requires Exact(ar) && Shaped(h, y, d) && Defined(ar, y, t, d)
    ensures var c := UpdateCoefficients(ar, h, y, t, d);
      && c.lambda == InnerProduct(y, d, |y|) * t
      && c.theta == InnerProduct(y, c.kappa, |y|)
      && c.sigma == (c.lambda + c.theta) / (c.lambda * c.lambda)
      && c.beta == t * c.lambda * c.sigma / 2.0
      && c.alpha == -(t / c.lambda)
  {
    var c := UpdateCoefficients(ar, h, y, t, d);
    ExactDot(ar, y, d);
    ExactDot(ar, y, c.kappa);
    ExactScalars(ar, t, c.lambda, c.theta, c.sigma, c.beta, c.alpha);
  }

  /** The scalar steps of the update without rounding. */
  lemma ExactScalars(ar: Arith, t: real, lambda: real, theta: real, sigma: real, beta: real, alpha: real)
    requires Exact(ar) && lambda != 0.0 && Sqr(ar, lambda) != 0.0
    requires sigma == Div(ar, Add(ar, lambda, theta), Sqr(ar, lambda))
    requires beta == Div2(ar, Mul(ar, Mul(ar, t, lambda), sigma), 1)
    requires alpha == -Div(ar, t, lambda)
    ensures sigma == (lambda + theta) / (lambda * lambda)
    ensures beta == t * lambda * sigma / 2.0
    ensures alpha == -(t / lambda)
  {
    assert Pow2(1) == 2.0;
  }

  /**
    The algebra behind the secant condition, for one row: kappa_i plus alpha times
    (d_i (kappa' . y) + kappa'_i s) is t d_i, where kappa' . y = theta - beta s.
  */
  lemma SecantRow(ki: real, di: real, s: real, t: real, theta: real)
    requires s * t != 0.0
    ensures var lambda := s * t;
      var sigma := (lambda + theta) / (lambda * lambda);
      var beta := t * lambda * sigma / 2.0;
      var alpha := -(t / lambda);
      ki + alpha * di * (theta - beta * s) + alpha * (ki - beta * di) * s == t * di
  {
    var lambda := s * t;
    var sigma := (lambda + theta) / (lambda * lambda);
    var beta := t * lambda * sigma / 2.0;
    var alpha := -(t / lambda);
    assert lambda * lambda * sigma == lambda + theta;
    assert 2.0 * beta * s == lambda * lambda * sigma;
    assert di * (theta - beta * s) + (ki - beta * di) * s == ki * s - lambda * di by {
      assert di * (theta - beta * s) + (ki - beta * di) * s == di * theta - 2.0 * beta * s * di + ki * s;
    }
    assert alpha * (ki * s - lambda * di) == t * di - ki by {
      assert alpha * lambda == -t;
      assert alpha * s == -(t * s) / lambda;
      assert t * s / lambda == 1.0;
    }
  }

  /** If kp_j = kappa_j - beta d_j for every j, then kp . y = kappa . y - beta (d . y). */
  lemma {:induction false} ShiftedProduct(kp: seq<real>, kappa: seq<real>, d: seq<real>, y: seq<real>, beta: real, k: nat)
    requires |kappa| == |kp| && |d| == |kp| && |y| == |kp| && k <= |kp|
    requires forall j :: 0 <= j < |kp| ==> kp[j] == Shift(kappa[j], beta, d[j])
    ensures InnerProduct(kp, y, k) == Shift(InnerProduct(kappa, y, k), beta, InnerProduct(d, y, k))
  {
    if k > 0 {
      ShiftedProduct(kp, kappa, d, y, beta, k - 1);
      var j := k - 1;
      assert kp[j] * y[j] == kappa[j] * y[j] - beta * (d[j] * y[j]);
    }
  }

  /** In exact arithmetic kappa'_j = kappa_j - beta d_j. */
  lemma ExactShiftedKappa(ar: Arith, kappa: seq<real>, beta: real, d: seq<real>, n: nat)
    requires Exact(ar) && |d| == |kappa| && n == |kappa|
    ensures forall j :: 0 <= j < n ==> ShiftedKappa(ar, kappa, beta, d, n)[j] == Shift(kappa[j], beta, d[j])
  {
  }

  /** In exact arithmetic entry (i, j) of the update is h_ij + (alpha d_i) kp_j + (alpha kp_i) d_j. */
  lemma ExactUpdatedEntry(ar: Arith, hij: real, alpha: real, kp: seq<real>, d: seq<real>, i: nat, j: nat)
    requires Exact(ar) && |kp| == |d| && i < |d| && j < |d|
    ensures UpdatedEntry(ar, hij, alpha, kp, d, i, j) == hij + (alpha * d[i]) * kp[j] + (alpha * kp[i]) * d[j]
  {
    assert alpha * (d[i] * kp[j] + kp[i] * d[j]) == (alpha * d[i]) * kp[j] + (alpha * kp[i]) * d[j];
  }

  /**
    In exact arithmetic row i of a rank-two update is row i of h plus a kp + b d,
    with a = alpha d_i and b = alpha kp_i.
  */
  lemma ExactRankTwoRow(ar: Arith, h: seq<real>, h': seq<real>, n: nat, alpha: real, kp: seq<real>, d: seq<real>,
                        i: nat, a: real, b: real)
    requires Exact(ar) && |h| == n * n && |h'| == n * n && |kp| == n && |d| == n && i < n
    requires IsRankTwoUpdate(ar, h, h', n, alpha, kp, d)
    requires a == alpha * d[i] && b == alpha * kp[i]
    ensures forall j :: 0 <= j < n ==> Row(h', n, i)[j] == Combination(Row(h, n, i)[j], a, kp[j], b, d[j])
  {
    forall j | 0 <= j < n
      ensures Row(h', n, i)[j] == Combination(Row(h, n, i)[j], a, kp[j], b, d[j])
    {
      ExactUpdatedEntry(ar, At(h, n, i, j), alpha, kp, d, i, j);
    }
  }

  /** In exact arithmetic kappa' . y = theta - beta (d . y). */
  lemma ExactShiftedKappaProduct(ar: Arith, h: seq<real>, y: seq<real>, t: real, d: seq<real>, c: Coefficients,
                                 s: real)
    requires Exact(ar) && Shaped(h, y, d) && Defined(ar, y, t, d) && c == UpdateCoefficients(ar, h, y, t, d)
    requires s == InnerProduct(d, y, |y|)
    ensures InnerProduct(ShiftedKappa(ar, c.kappa, c.beta, d, |y|), y, |y|) == Shift(c.theta, c.beta, s)
  {
    var n := |y|;
    ExactShiftedKappa(ar, c.kappa, c.beta, d, n);
    ShiftedProduct(ShiftedKappa(ar, c.kappa, c.beta, d, n), c.kappa, d, y, c.beta, n);
    ExactDot(ar, y, c.kappa);
    InnerProductSymmetric(y, c.kappa, n);
  }

  /**
    In exact arithmetic, row i of a rank-two update dotted with y is row i of h dotted
    with y plus alpha d_i (kp . y) + alpha kp_i (d . y).
  */
  lemma ExactRankTwoRowProduct(ar: Arith, h: seq<real>, h': seq<real>, n: nat, alpha: real, kp: seq<real>,
                               d: seq<real>, y: seq<real>, i: nat)
    requires Exact(ar) && |h| == n * n && |h'| == n * n && |kp| == n && |d| == n && |y| == n && i < n
    requires IsRankTwoUpdate(ar, h, h', n, alpha, kp, d)
    ensures InnerProduct(Row(h', n, i), y, n)
      == Combination(InnerProduct(Row(h, n, i), y, n), alpha * d[i], InnerProduct(kp, y, n), alpha * kp[i],
                     InnerProduct(d, y, n))
  {
    var a, b := alpha * d[i], alpha * kp[i];
    ExactRankTwoRow(ar, h, h', n, alpha, kp, d, i, a, b);
    InnerProductLinear(Row(h', n, i), Row(h, n, i), kp, d, y, a, b, n);
  }

  /**
    The scalar identity behind the secant condition, in exact arithmetic: with s = d . y
    and kappa'_i = kappa_i - beta d_i, kappa_i + alpha d_i (theta - beta s) + alpha kappa'_i s = t d_i.
  */
  lemma ExactScalarIdentity(ar: Arith, h: seq<real>, y: seq<real>, t: real, d: seq<real>, c: Coefficients,
                            kp: seq<real>, i: nat, s: real)
    requires Exact(ar) && Shaped(h, y, d) && Defined(ar, y, t, d) && i < |y|
    requires c == UpdateCoefficients(ar, h, y, t, d) && kp == ShiftedKappa(ar, c.kappa, c.beta, d, |y|)
    requires s == InnerProduct(d, y, |y|)
    ensures |kp| == |y| && |c.kappa| == |y|
    ensures Combination(c.kappa[i], c.alpha * d[i], Shift(c.theta, c.beta, s), c.alpha * kp[i], s) == t * d[i]
  {
    ExactShiftedKappa(ar, c.kappa, c.beta, d, |y|);
    ExactDot(ar, y, d);
    InnerProductSymmetric(y, d, |y|);
    assert Dot(ar, y, d) == s;
    ScalarIdentity(ar, c, kp, d, i, s, t);
  }

  /**
    `SecantRow` for scalars computed as the update computes them, with no rounding:
    lambda = s t, sigma = (lambda + theta) / lambda^2, beta = t lambda sigma / 2, alpha = -t / lambda.
  */
  lemma ScalarIdentity(ar: Arith, c: Coefficients, kp: seq<real>, d: seq<real>, i: nat, s: real, t: real)
    requires Exact(ar) && c.lambda == Mul(ar, s, t) && c.lambda != 0.0 && Sqr(ar, c.lambda) != 0.0
    requires c.sigma == Div(ar, Add(ar, c.lambda, c.theta), Sqr(ar, c.lambda))
    requires c.beta == Div2(ar, Mul(ar, Mul(ar, t, c.lambda), c.sigma), 1) && c.alpha == -Div(ar, t, c.lambda)
    requires i < |kp| && |d| == |kp| && |c.kappa| == |kp|
    requires kp[i] == Shift(c.kappa[i], c.beta, d[i])
    ensures Combination(c.kappa[i], c.alpha * d[i], Shift(c.theta, c.beta, s), c.alpha * kp[i], s) == t * d[i]
  {
    assert Pow2(1) == 2.0;
    SecantRow(c.kappa[i], d[i], s, t, c.theta);
  }

  /** In exact arithmetic row i of H dotted with y is kappa_i. */
  lemma ExactKappaEntry(ar: Arith, h: seq<real>, y: seq<real>, t: real, d: seq<real>, c: Coefficients, i: nat)
    requires Exact(ar) && Shaped(h, y, d) && Defined(ar, y, t, d) && i < |y|
    requires c == UpdateCoefficients(ar, h, y, t, d)
    ensures InnerProduct(Row(h, |y|, i), y, |y|) == c.kappa[i]
  {
    ExactDot(ar, Row(h, |y|, i), y);
  }

  /** Row i of the secant condition for a rank-two update built from c and kappa'. */
  lemma ExactSecantEntry(ar: Arith, h: seq<real>, h': seq<real>, n: nat, y: seq<real>, t: real, d: seq<real>,
                         c: Coefficients, kp: seq<real>, i: nat, s: real)
    requires Exact(ar) && 1 <= n && |y| == n && |d| == n && |kp| == n && |c.kappa| == n && i < n
    requires |h| == n * n && |h'| == n * n
    requires IsRankTwoUpdate(ar, h, h', n, c.alpha, kp, d)
    requires s == InnerProduct(d, y, n)
    requires InnerProduct(Row(h, n, i), y, n) == c.kappa[i]
    requires InnerProduct(kp, y, n) == Shift(c.theta, c.beta, s)
    requires Combination(c.kappa[i], c.alpha * d[i], Shift(c.theta, c.beta, s), c.alpha * kp[i], s) == t * d[i]
    ensures RowDot(ar, h', y, n, i) == t * d[i]
  {
    ExactRankTwoRowProduct(ar, h, h', n, c.alpha, kp, d, y, i);
    ExactDot(ar, Row(h', n, i), y);
  }

  /** With n = N, `IsUpdate` is a rank-two update of the whole matrices. */
  lemma FullUpdateIsRankTwo(ar: Arith, h: seq<real>, h': seq<real>, y: seq<real>, t: real, d: seq<real>,
                            c: Coefficients, kp: seq<real>)
    requires Shaped(h, y, d) && Defined(ar, y, t, d) && |h'| == |h|
    requires IsUpdate(ar, h, h', |y|, y, t, d)
    requires c == UpdateCoefficients(ar, h, y, t, d) && kp == ShiftedKappa(ar, c.kappa, c.beta, d, |y|)
    ensures |kp| == |y|
    ensures IsRankTwoUpdate(ar, h, h', |y|, c.alpha, kp, d)
  {
    var n := |y|;
    assert h[..n * n] == h && h'[..n * n] == h';
  }

  /**
    In exact arithmetic, with the loops run over all N indices, the updated inverse
    Hessian maps the gradient delta to the step: H' y = t d (the secant condition).
  */
  lemma ExactSecantCondition(ar: Arith, h: seq<real>, h': seq<real>, y: seq<real>, t: real, d: seq<real>)
    requires Exact(ar) && Shaped(h, y, d) && Defined(ar, y, t, d) && |h'| == |h|
    requires IsUpdate(ar, h, h', |y|, y, t, d)
    ensures MatVec(ar, h', y, |y|) == Scaled(ar, t, d)
  {
    var c := UpdateCoefficients(ar, h, y, t, d);
    var kp := ShiftedKappa(ar, c.kappa, c.beta, d, |y|);
    var s := InnerProduct(d, y, |y|);
    FullUpdateIsRankTwo(ar, h, h', y, t, d, c, kp);
    ExactShiftedKappaProduct(ar, h, y, t, d, c, s);
    forall i | 0 <= i < |y|
      ensures MatVec(ar, h', y, |y|)[i] == Scaled(ar, t, d)[i]
    {
      ExactScalarIdentity(ar, h, y, t, d, c, kp, i, s);
      ExactKappaEntry(ar, h, y, t, d, c, i);
      ExactSecantEntry(ar, h, h', |y|, y, t, d, c, kp, i, s);
    }
  }

  /** In exact arithmetic the update keeps a symmetric matrix symmetric. */
  lemma ExactUpdateKeepsSymmetry(ar: Arith, h: seq<real>, h': seq<real>, n: nat, y: seq<real>, t: real, d: seq<real>)
    requires Exact(ar) && Shaped(h, y, d) && Defined(ar, y, t, d) && n <= |y| && |h'| == |h|
    requires IsUpdate(ar, h, h', n, y, t, d)
    ensures n * n <= |h|
    ensures IsSymmetric(h[..n * n], n) ==> IsSymmetric(h'[..n * n], n)
  {
    SquareMono(n, |y|);
    var c := UpdateCoefficients(ar, h, y, t, d);
    var kp := ShiftedKappa(ar, c.kappa, c.beta, d, n);
    var hn, hn' := h[..n * n], h'[..n * n];
    if IsSymmetric(hn, n) {
      forall i, j | 0 <= i < n && 0 <= j < n
        ensures At(hn', n, i, j) == At(hn', n, j, i)
      {
        ExactUpdatedEntrySymmetric(ar, At(hn, n, i, j), At(hn, n, j, i), c.alpha, kp, d, i, j);
      }
    }
  }

  /** In exact arithmetic the correction alpha (kp_i d_j + d_i kp_j) is symmetric in i and j. */
  lemma ExactUpdatedEntrySymmetric(ar: Arith, hij: real, hji: real, alpha: real, kp: seq<real>, d: seq<real>,
                                   i: nat, j: nat)
    requires Exact(ar) && |kp| == |d| && i < |d| && j < |d| && hij == hji
    ensures UpdatedEntry(ar, hij, alpha, kp, d, i, j) == UpdatedEntry(ar, hji, alpha, kp, d, j, i)
  {
    var di, dj, ki, kj := d[i], d[j], kp[i], kp[j];
    assert di * kj + ki * dj == dj * ki + kj * di;
  }
}
