/**
  The quadratic line search (QuadraticLineSearcher).

  Starting from the point x0 with objective value f0, the searcher tries steps t along
  the direction dx, evaluating the objective at x0 + t dx, and keeps the best pair
  (value, step) it has seen. `search` first tries the initial step. If that improves on
  f0 it doubles the step while the value keeps improving (at most four times), otherwise
  it halves the step until the value drops below f0 or the point stops moving. It then
  fits a parabola through the last three samples and tries the parabola's vertex.

  The objective is a parameter of the searcher. Every variable shares one precision, so
  `mpfr_set` and `mpfr_swap` are plain copies; arithmetic goes through `Scalars`.

  Besides the fields of the source, the searcher keeps a ghost `history` of every
  evaluation it performed, so that the contract of `Search` can say which steps were
  tried, in which order, and why the search stopped.
*/
module LineSearch {
  import opened Scalars
  import opened Matrices
  import opened Vectors

  /** One call of evaluate_objective_function: the step tried, the value reported, and
      whether x0 + t dx differed from x0. */
  datatype Evaluation = Evaluation(step: real, value: real, changed: bool)

  // ------------------------------------------------------------ interpolation

  /** After doubling: denom = (2 f1 - f2) - f0, each operation rounded. */
  function DoublingDenominator(ar: Arith, f0: real, f1: real, f2: real): real
  {
    Sub(ar, Sub(ar, Mul2(ar, f1, 1), f2), f0)
  }

  /** After doubling: numer = (4 f1 - f2) - 3 f0. */
  function DoublingNumerator(ar: Arith, f0: real, f1: real, f2: real): real
  {
    Sub(ar, Sub(ar, Mul2(ar, f1, 2), f2), Mul(ar, f0, 3.0))
  }

  /** The interpolated step after doubling: ((s / 2) numer) / denom. */
  function DoublingStep(ar: Arith, f0: real, f1: real, f2: real, s: real): real
    requires DoublingDenominator(ar, f0, f1, f2) != 0.0
  {
    Div(ar, Mul(ar, Div2(ar, s, 1), DoublingNumerator(ar, f0, f1, f2)), DoublingDenominator(ar, f0, f1, f2))
  }

  /** After halving: denom = (f1 - 2 f2) + f0. */
  function HalvingDenominator(ar: Arith, f0: real, f1: real, f2: real): real
  {
    Add(ar, Sub(ar, f1, Mul2(ar, f2, 1)), f0)
  }

  /** After halving: numer = (f1 - 2 (2 f2)) + 3 f0, f2 having been doubled twice in place. */
  function HalvingNumerator(ar: Arith, f0: real, f1: real, f2: real): real
  {
    Add(ar, Sub(ar, f1, Mul2(ar, Mul2(ar, f2, 1), 1)), Mul(ar, f0, 3.0))
  }

  /** The interpolated step after halving: ((s / 4) numer) / denom. */
  function HalvingStep(ar: Arith, f0: real, f1: real, f2: real, s: real): real
    requires HalvingDenominator(ar, f0, f1, f2) != 0.0
  {
    Div(ar, Mul(ar, Div2(ar, s, 2), HalvingNumerator(ar, f0, f1, f2)), HalvingDenominator(ar, f0, f1, f2))
  }

  /** The parabola c0 + c1 t + c2 t^2. */
  datatype Parabola = Parabola(c0: real, c1: real, c2: real)

  function Eval(p: Parabola, t: real): real
  {
    p.c0 + p.c1 * t + p.c2 * t * t
  }

  /** The derivative of the parabola at t. */
  function Slope(p: Parabola, t: real): real
  {
    p.c1 + 2.0 * p.c2 * t
  }

  /** The parabola through the samples (0, f0), (h, fh) and (2h, f2h). */
  function ThroughSamples(f0: real, fh: real, f2h: real, h: real): (p: Parabola)
    requires 0.0 < h
    ensures Eval(p, 0.0) == f0 && Eval(p, h) == fh && Eval(p, 2.0 * h) == f2h
  {
    SamplesFit(f0, fh, f2h, h);
    Parabola(f0, (4.0 * fh - f2h - 3.0 * f0) / (2.0 * h), ((f2h - 2.0 * fh + f0) / (2.0 * h)) / h)
  }

  lemma SamplesFit(f0: real, fh: real, f2h: real, h: real)
    requires 0.0 < h
    ensures var p := Parabola(f0, (4.0 * fh - f2h - 3.0 * f0) / (2.0 * h), ((f2h - 2.0 * fh + f0) / (2.0 * h)) / h);
      Eval(p, 0.0) == f0 && Eval(p, h) == fh && Eval(p, 2.0 * h) == f2h
  {
    var c1 := (4.0 * fh - f2h - 3.0 * f0) / (2.0 * h);
    var q := (f2h - 2.0 * fh + f0) / (2.0 * h);
    var c2 := q / h;
    QuotientTimesDivisor(4.0 * fh - f2h - 3.0 * f0, 2.0 * h);
    QuotientTimesDivisor(f2h - 2.0 * fh + f0, 2.0 * h);
    QuotientTimesDivisor(q, h);
    assert c1 * h == (4.0 * fh - f2h - 3.0 * f0) / 2.0;
    assert c2 * h * h == q * h;
    assert q * h == (f2h - 2.0 * fh + f0) / 2.0;
    assert c2 * (2.0 * h) * (2.0 * h) == 4.0 * (c2 * h * h);
  }

  lemma QuotientTimesDivisor(x: real, d: real)
    requires d != 0.0
    ensures (x / d) * d == x
  {
  }

  /**
    In exact arithmetic, after a doubling that failed to improve (f1 < f0, f2 >= f1, at
    steps s and 2s), the denominator is negative, so the division is defined, the
    parabola through the three samples opens upward, and the interpolated step is its
    vertex and is positive.
  */
  lemma ExactDoublingStepIsVertex(ar: Arith, f0: real, f1: real, f2: real, s: real)
    requires Exact(ar) && 0.0 < s && f1 < f0 && f1 <= f2
    ensures DoublingDenominator(ar, f0, f1, f2) < 0.0
    ensures 0.0 < DoublingStep(ar, f0, f1, f2, s)
    ensures 0.0 < ThroughSamples(f0, f1, f2, s).c2
    ensures Slope(ThroughSamples(f0, f1, f2, s), DoublingStep(ar, f0, f1, f2, s)) == 0.0
  {
    var den := 2.0 * f1 - f2 - f0;
    var num := 4.0 * f1 - f2 - 3.0 * f0;
    assert DoublingDenominator(ar, f0, f1, f2) == den;
    assert DoublingNumerator(ar, f0, f1, f2) == num;
    assert num < 0.0;
    var t := DoublingStep(ar, f0, f1, f2, s);
    assert t == (s / 2.0) * num / den;
    VertexOfSamples(f0, f1, f2, s, num, den, t);
    PositiveQuotient(s / 2.0, num, den);
  }

  /**
    In exact arithmetic, after a halving that went below f0 (sampled at s / 2 with value
    f2 < f0, after the step s with value f1 >= f0), the denominator is positive, the
    parabola through (0, f0), (s / 2, f2), (s, f1) opens upward, and the interpolated step
    is its vertex and is positive.
  */
  lemma ExactHalvingStepIsVertex(ar: Arith, f0: real, f1: real, f2: real, s: real)
    requires Exact(ar) && 0.0 < s && f2 < f0 && f0 <= f1
    ensures 0.0 < HalvingDenominator(ar, f0, f1, f2)
    ensures 0.0 < HalvingStep(ar, f0, f1, f2, s)
    ensures 0.0 < ThroughSamples(f0, f2, f1, s / 2.0).c2
    ensures Slope(ThroughSamples(f0, f2, f1, s / 2.0), HalvingStep(ar, f0, f1, f2, s)) == 0.0
  {
    var den := f1 - 2.0 * f2 + f0;
    var num := f1 - 4.0 * f2 + 3.0 * f0;
    assert HalvingDenominator(ar, f0, f1, f2) == den;
    assert HalvingNumerator(ar, f0, f1, f2) == num;
    var t := HalvingStep(ar, f0, f1, f2, s);
    var h := s / 2.0;
    assert t == (s / 4.0) * num / den;
    assert t == (h / 2.0) * (-num) / (-den);
    assert -num == 4.0 * f2 - f1 - 3.0 * f0 && -den == 2.0 * f2 - f1 - f0;
    VertexOfSamples(f0, f2, f1, h, -num, -den, t);
    PositiveQuotient(s / 4.0, num, den);
  }

  /** The vertex of the parabola through (0, f0), (h, fh), (2h, f2h). */
  lemma VertexOfSamples(f0: real, fh: real, f2h: real, h: real, num: real, den: real, t: real)
    requires 0.0 < h && num == 4.0 * fh - f2h - 3.0 * f0 && den == 2.0 * fh - f2h - f0 && den < 0.0
    requires t == (h / 2.0) * num / den
    ensures 0.0 < ThroughSamples(f0, fh, f2h, h).c2
    ensures Slope(ThroughSamples(f0, fh, f2h, h), t) == 0.0
  {
    var p := ThroughSamples(f0, fh, f2h, h);
    var q := -den / (2.0 * h);
    assert p.c1 == num / (2.0 * h);
    assert p.c2 == q / h;
    assert 0.0 < q;
    QuotientTimesDivisor(q, h);
    QuotientTimesDivisor(-den, 2.0 * h);
    QuotientTimesDivisor(num, den);
    // 2 c2 t = 2 (q / h) (h / 2) (num / den) = q (num / den)
    assert t == (h / 2.0) * (num / den);
    assert 2.0 * p.c2 * t == (p.c2 * h) * (num / den);
    assert (p.c2 * h) * (num / den) == q * (num / den);
    assert q * (num / den) == -num / (2.0 * h) by {
      assert q * (2.0 * h) == -den;
      assert (q * (num / den)) * (2.0 * h) == -den * (num / den);
      assert -den * (num / den) == -num;
    }
  }

  lemma PositiveQuotient(a: real, num: real, den: real)
    requires 0.0 < a && den != 0.0 && (num < 0.0 <==> den < 0.0) && num != 0.0
    ensures 0.0 < a * num / den
  {
    assert num / den > 0.0;
    assert a * num / den == a * (num / den);
  }

  // ------------------------------------------------------------ the best pair

  /**
    The best pair is either the starting pair (f0, 0), or a value strictly below f0 that
    is the objective at the point the best step leads to, a point different from x0.
  */
  ghost predicate ConsistentBest(ar: Arith, objective: seq<real> -> real, x0: seq<real>, dx: seq<real>,
                                 f0: real, best: real, bestStep: real)
    requires |dx| == |x0|
  {
    (bestStep == 0.0 && best == f0)
    || (best < f0 && Axpy(ar, bestStep, dx, x0) != x0 && best == objective(Axpy(ar, bestStep, dx, x0)))
  }

  /**
    The best value never exceeds f0, and a best step of zero means the best value is f0:
    a zero step leaves a representable x0 where it is, so it is never recorded as an
    improvement.
  */
  lemma ZeroBestStepKeepsValue(ar: Arith, objective: seq<real> -> real, x0: seq<real>, dx: seq<real>,
                               f0: real, best: real, bestStep: real)
    requires |dx| == |x0| && AllRepresentable(ar, x0)
    requires ConsistentBest(ar, objective, x0, dx, f0, best, bestStep)
    ensures best <= f0
    ensures bestStep == 0.0 ==> best == f0
  {
    if bestStep == 0.0 {
      ZeroStepKeepsPoint(ar, dx, x0);
    }
  }

  // ------------------------------------------------------------ the evaluations

  /** An evaluation reports f0 for a step that leaves x0 unmoved, the objective otherwise. */
  ghost predicate Recorded(ar: Arith, objective: seq<real> -> real, x0: seq<real>, dx: seq<real>,
                           f0: real, e: Evaluation)
    requires |dx| == |x0|
  {
    (e.changed <==> Axpy(ar, e.step, dx, x0) != x0)
    && e.value == (if e.changed then objective(Axpy(ar, e.step, dx, x0)) else f0)
  }

  ghost predicate AllRecorded(ar: Arith, objective: seq<real> -> real, x0: seq<real>, dx: seq<real>,
                              f0: real, h: seq<Evaluation>)
    requires |dx| == |x0|
  {
    |h| == 0 || (AllRecorded(ar, objective, x0, dx, f0, h[..|h| - 1]) && Recorded(ar, objective, x0, dx, f0, h[|h| - 1]))
  }

  /** The best value after the evaluations h, starting from b: replaced only by a strictly
      smaller value at a point that moved. */
  function Lowest(b: real, h: seq<Evaluation>): real
  {
    if |h| == 0 then b
    else
      var m := Lowest(b, h[..|h| - 1]);
      if h[|h| - 1].changed && h[|h| - 1].value < m then h[|h| - 1].value else m
  }

  /** The step that goes with `Lowest(b, h)`: 0 until a value at a moved point improves on
      the best so far, then the step of the latest such improvement. */
  function LowestStep(b: real, h: seq<Evaluation>): real
  {
    if |h| == 0 then 0.0
    else if h[|h| - 1].changed && h[|h| - 1].value < Lowest(b, h[..|h| - 1]) then h[|h| - 1].step
    else LowestStep(b, h[..|h| - 1])
  }

  /** The best value is at most the starting value and at most every value reported at a
      point that moved: it is their minimum. */
  lemma {:induction false} LowestIsMinimum(b: real, h: seq<Evaluation>)
    ensures Lowest(b, h) <= b
    ensures forall k :: 0 <= k < |h| && h[k].changed ==> Lowest(b, h) <= h[k].value
    ensures Lowest(b, h) == b || exists k :: 0 <= k < |h| && h[k].changed && Lowest(b, h) == h[k].value
  {
    if |h| > 0 {
      var p := h[..|h| - 1];
      LowestIsMinimum(b, p);
      assert forall k :: 0 <= k < |p| ==> h[k] == p[k];
    }
  }

  /** Every evaluation of a recorded history is recorded. */
  lemma {:induction false} RecordedAt(ar: Arith, objective: seq<real> -> real, x0: seq<real>, dx: seq<real>,
                                      f0: real, h: seq<Evaluation>, k: nat)
    requires |dx| == |x0| && AllRecorded(ar, objective, x0, dx, f0, h) && k < |h|
    ensures Recorded(ar, objective, x0, dx, f0, h[k])
  {
    if k < |h| - 1 {
      RecordedAt(ar, objective, x0, dx, f0, h[..|h| - 1], k);
    }
  }

  lemma RecordOne(ar: Arith, objective: seq<real> -> real, x0: seq<real>, dx: seq<real>,
                  f0: real, h: seq<Evaluation>, e: Evaluation)
    requires |dx| == |x0| && AllRecorded(ar, objective, x0, dx, f0, h) && Recorded(ar, objective, x0, dx, f0, e)
    ensures AllRecorded(ar, objective, x0, dx, f0, h + [e])
    ensures Lowest(f0, h + [e]) == if e.changed && e.value < Lowest(f0, h) then e.value else Lowest(f0, h)
    ensures LowestStep(f0, h + [e]) == if e.changed && e.value < Lowest(f0, h) then e.step else LowestStep(f0, h)
  {
    assert (h + [e])[..|h|] == h;
  }

  // ------------------------------------------------------------ traces of a search

  /** Entries 1 .. L each try twice the step before them (mpfr_mul_2ui by 1). */
  ghost predicate DoubledSteps(ar: Arith, h: seq<Evaluation>, L: nat)
    requires L < |h|
  {
    forall k :: 1 <= k <= L ==> h[k].step == Mul2(ar, h[k - 1].step, 1)
  }

  /** Entries 1 .. L each try half the step before them (mpfr_div_2ui by 1). */
  ghost predicate HalvedSteps(ar: Arith, h: seq<Evaluation>, L: nat)
    requires L < |h|
  {
    forall k :: 1 <= k <= L ==> h[k].step == Div2(ar, h[k - 1].step, 1)
  }

  /** Entries 1 .. L each improved strictly on the value before them: accepted doublings. */
  ghost predicate Improving(h: seq<Evaluation>, L: nat)
    requires L < |h|
  {
    forall k :: 1 <= k <= L ==> h[k].value < h[k - 1].value
  }

  /** Entries 1 .. L each moved the point and did not go below f0: rejected halvings. */
  ghost predicate NotBelow(f0: real, h: seq<Evaluation>, L: nat)
    requires L < |h|
  {
    forall k :: 1 <= k <= L ==> h[k].changed && f0 <= h[k].value
  }

  /**
    The evaluations of a search whose first step improved on f0: at most six in all.
    Either four doublings in a row improved and the search stopped, or the doublings
    improved until one did not, and the vertex of the parabola through f0 and the last
    two samples was tried (unless its denominator is zero, see `Search`).
  */
  ghost predicate DoublingTrace(ar: Arith, f0: real, h: seq<Evaluation>)
  {
    2 <= |h| <= 6 && h[0].value < f0 &&
    ( (|h| == 5 && DoubledSteps(ar, h, 4) && Improving(h, 4))
    || (3 <= |h| && DoubledSteps(ar, h, |h| - 2) && Improving(h, |h| - 3) && h[|h| - 3].value <= h[|h| - 2].value
        && DoublingDenominator(ar, f0, h[|h| - 3].value, h[|h| - 2].value) != 0.0
        && h[|h| - 1].step == DoublingStep(ar, f0, h[|h| - 3].value, h[|h| - 2].value, h[|h| - 3].step))
    || (|h| <= 5 && DoubledSteps(ar, h, |h| - 1) && Improving(h, |h| - 2) && h[|h| - 2].value <= h[|h| - 1].value
        && DoublingDenominator(ar, f0, h[|h| - 2].value, h[|h| - 1].value) == 0.0))
  }

  /**
    The evaluations of a search whose first step did not improve on f0. The step is
    halved while the point moves and the value stays at or above f0. The search stops
    when the point no longer moves; when the value drops below f0, the vertex of the
    parabola through f0 and the last two samples is tried (unless its denominator is
    zero); or when `fuel` halvings were all rejected.
  */
  ghost predicate HalvingTrace(ar: Arith, f0: real, fuel: nat, h: seq<Evaluation>)
  {
    1 <= |h| && f0 <= h[0].value &&
    ( (2 <= |h| && HalvedSteps(ar, h, |h| - 1) && NotBelow(f0, h, |h| - 2) && !h[|h| - 1].changed)
    || (3 <= |h| && HalvedSteps(ar, h, |h| - 2) && NotBelow(f0, h, |h| - 3)
        && h[|h| - 2].changed && h[|h| - 2].value < f0
        && HalvingDenominator(ar, f0, h[|h| - 3].value, h[|h| - 2].value) != 0.0
        && h[|h| - 1].step == HalvingStep(ar, f0, h[|h| - 3].value, h[|h| - 2].value, h[|h| - 3].step))
    || (2 <= |h| && HalvedSteps(ar, h, |h| - 1) && NotBelow(f0, h, |h| - 2)
        && h[|h| - 1].changed && h[|h| - 1].value < f0
        && HalvingDenominator(ar, f0, h[|h| - 2].value, h[|h| - 1].value) == 0.0)
    || (|h| == fuel + 1 && HalvedSteps(ar, h, fuel) && NotBelow(f0, h, fuel)))
  }

  // Appending an evaluation keeps what was said about the entries before it.

  lemma GrowDoubled(ar: Arith, h: seq<Evaluation>, e: Evaluation, L: nat)
    requires L < |h| && DoubledSteps(ar, h, L)
    ensures DoubledSteps(ar, h + [e], L)
    ensures L + 1 == |h| && e.step == Mul2(ar, h[L].step, 1) ==> DoubledSteps(ar, h + [e], L + 1)
  {
  }

  lemma GrowHalved(ar: Arith, h: seq<Evaluation>, e: Evaluation, L: nat)
    requires L < |h| && HalvedSteps(ar, h, L)
    ensures HalvedSteps(ar, h + [e], L)
    ensures L + 1 == |h| && e.step == Div2(ar, h[L].step, 1) ==> HalvedSteps(ar, h + [e], L + 1)
  {
  }

  lemma GrowImproving(h: seq<Evaluation>, e: Evaluation, L: nat)
    requires L < |h| && Improving(h, L)
    ensures Improving(h + [e], L)
    ensures L + 1 == |h| && e.value < h[L].value ==> Improving(h + [e], L + 1)
  {
  }

  lemma GrowNotBelow(f0: real, h: seq<Evaluation>, e: Evaluation, L: nat)
    requires L < |h| && NotBelow(f0, h, L)
    ensures NotBelow(f0, h + [e], L)
    ensures L + 1 == |h| && e.changed && f0 <= e.value ==> NotBelow(f0, h + [e], L + 1)
  {
  }

  lemma AppendOne(a: seq<Evaluation>, b: seq<Evaluation>, e: Evaluation)
    ensures (a + b) + [e] == a + (b + [e])
  {
  }

  // The ways a doubling search ends.

  lemma DoublingStopsAfterFour(ar: Arith, f0: real, h: seq<Evaluation>)
    requires |h| == 5 && h[0].value < f0 && DoubledSteps(ar, h, 4) && Improving(h, 4)
    ensures DoublingTrace(ar, f0, h)
  {
  }

  lemma DoublingInterpolates(ar: Arith, f0: real, h: seq<Evaluation>, L: nat)
    requires 1 <= L <= 4 && |h| == L + 2 && h[0].value < f0
    requires DoubledSteps(ar, h, L) && Improving(h, L - 1) && h[L - 1].value <= h[L].value
    requires DoublingDenominator(ar, f0, h[L - 1].value, h[L].value) != 0.0
    requires h[L + 1].step == DoublingStep(ar, f0, h[L - 1].value, h[L].value, h[L - 1].step)
    ensures DoublingTrace(ar, f0, h)
  {
  }

  lemma DoublingMeetsZeroDenominator(ar: Arith, f0: real, h: seq<Evaluation>, L: nat)
    requires 1 <= L <= 4 && |h| == L + 1 && h[0].value < f0
    requires DoubledSteps(ar, h, L) && Improving(h, L - 1) && h[L - 1].value <= h[L].value
    requires DoublingDenominator(ar, f0, h[L - 1].value, h[L].value) == 0.0
    ensures DoublingTrace(ar, f0, h)
  {
  }

  // The ways a halving search ends.

  lemma HalvingStopsUnmoved(ar: Arith, f0: real, fuel: nat, h: seq<Evaluation>, L: nat)
    requires 1 <= L && |h| == L + 1 && f0 <= h[0].value
    requires HalvedSteps(ar, h, L) && NotBelow(f0, h, L - 1) && !h[L].changed
    ensures HalvingTrace(ar, f0, fuel, h)
  {
  }

  lemma HalvingInterpolates(ar: Arith, f0: real, fuel: nat, h: seq<Evaluation>, L: nat)
    requires 1 <= L && |h| == L + 2 && f0 <= h[0].value
    requires HalvedSteps(ar, h, L) && NotBelow(f0, h, L - 1) && h[L].changed && h[L].value < f0
    requires HalvingDenominator(ar, f0, h[L - 1].value, h[L].value) != 0.0
    requires h[L + 1].step == HalvingStep(ar, f0, h[L - 1].value, h[L].value, h[L - 1].step)
    ensures HalvingTrace(ar, f0, fuel, h)
  {
  }

  lemma HalvingMeetsZeroDenominator(ar: Arith, f0: real, fuel: nat, h: seq<Evaluation>, L: nat)
    requires 1 <= L && |h| == L + 1 && f0 <= h[0].value
    requires HalvedSteps(ar, h, L) && NotBelow(f0, h, L - 1) && h[L].changed && h[L].value < f0
    requires HalvingDenominator(ar, f0, h[L - 1].value, h[L].value) == 0.0
    ensures HalvingTrace(ar, f0, fuel, h)
  {
  }

  lemma HalvingRunsOutOfFuel(ar: Arith, f0: real, fuel: nat, h: seq<Evaluation>)
    requires |h| == fuel + 1 && f0 <= h[0].value && HalvedSteps(ar, h, fuel) && NotBelow(f0, h, fuel)
    ensures HalvingTrace(ar, f0, fuel, h)
  {
  }

  /** A whole search from `initial`: the first evaluation decides which branch runs. */
  ghost predicate SearchTrace(ar: Arith, f0: real, initial: real, fuel: nat, h: seq<Evaluation>)
  {
    1 <= |h| && h[0].step == initial &&
    (if h[0].value < f0 then DoublingTrace(ar, f0, h) else HalvingTrace(ar, f0, fuel, h))
  }

  /**
    What a whole search from x0 along dx reports: its evaluations h follow the search's
    branches from the initial step, each reports the objective at the point it tried
    (f0 where the point did not move), and the best pair is the lowest of them with its
    step, consistent with the objective.
  */
  ghost predicate SearchResult(ar: Arith, objective: seq<real> -> real, x0: seq<real>, dx: seq<real>,
                               f0: real, initial: real, fuel: nat, h: seq<Evaluation>,
                               best: real, bestStep: real)
    requires |dx| == |x0|
  {
    SearchTrace(ar, f0, initial, fuel, h) && AllRecorded(ar, objective, x0, dx, f0, h)
    && best == Lowest(f0, h) && bestStep == LowestStep(f0, h)
    && ConsistentBest(ar, objective, x0, dx, f0, best, bestStep)
  }

  // ------------------------------------------------------------ the searcher

  class QuadraticLineSearcher {
    const ar: Arith
    const objective: seq<real> -> real
    const x0: Vector
    const dx: Vector
    const f0: real

    /** The caller's outputs, which the source holds by reference. */
    var bestObjectiveValue: real
    var bestStepSize: real

    ghost var history: seq<Evaluation>

    /** The point x0 + t dx, one fused multiply-add per entry. */
    ghost function Point(t: real): (p: seq<real>)
      requires x0.entries.Length == dx.entries.Length
      reads x0.entries, dx.entries
      ensures |p| == x0.entries.Length
    {
      Axpy(ar, t, dx.entries[..], x0.entries[..])
    }

    ghost predicate Valid()
      reads this`bestObjectiveValue, this`bestStepSize, this`history, x0.entries, dx.entries
    {
      x0.entries.Length == NumVars && dx.entries.Length == NumVars
      && ConsistentBest(ar, objective, x0.entries[..], dx.entries[..], f0, bestObjectiveValue, bestStepSize)
      && AllRecorded(ar, objective, x0.entries[..], dx.entries[..], f0, history)
      && bestObjectiveValue == Lowest(f0, history) && bestStepSize == LowestStep(f0, history)
    }

    /** The best pair starts as (f0, 0). */
    constructor (ar: Arith, objective: seq<real> -> real, initialPoint: Vector, initialObjectiveValue: real,
                 stepDirection: Vector)
      requires initialPoint.entries.Length == NumVars && stepDirection.entries.Length == NumVars
      ensures Valid() && history == []
      ensures this.ar == ar && this.objective == objective
      ensures x0 == initialPoint && dx == stepDirection && f0 == initialObjectiveValue
      ensures bestObjectiveValue == initialObjectiveValue && bestStepSize == 0.0
    {
      this.ar := ar;
      this.objective := objective;
      x0 := initialPoint;
      dx := stepDirection;
      f0 := initialObjectiveValue;
      bestObjectiveValue := initialObjectiveValue;
      bestStepSize := 0.0;
      history := [];
    }

    /**
      evaluate_objective_function: xt := x0 + t dx. An unmoved point reports f0 and
      leaves the best pair alone; otherwise the objective is evaluated at xt, and a
      strictly smaller value replaces the best pair with (value, t).
    */
    method EvaluateObjectiveFunction(xt: Vector, t: real) returns (value: real, changed: bool)
      requires Valid() && xt.entries.Length == NumVars
      requires xt.entries != x0.entries && xt.entries != dx.entries
      modifies xt.entries, this`bestObjectiveValue, this`bestStepSize, this`history
      ensures Valid()
      ensures xt.entries[..] == Point(t)
      ensures changed <==> Point(t) != x0.entries[..]
      ensures value == if changed then objective(Point(t)) else f0
      ensures history == old(history) + [Evaluation(t, value, changed)]
      ensures bestObjectiveValue <= old(bestObjectiveValue)
      ensures if changed && value < old(bestObjectiveValue)
              then bestObjectiveValue == value && bestStepSize == t
              else bestObjectiveValue == old(bestObjectiveValue) && bestStepSize == old(bestStepSize)
    {
      xt.SetAxpy(ar, t, dx, x0);
      var same := x0.Equals(xt);
      if same {
        changed := false;
        value := f0;
      } else {
        changed := true;
        value := objective(xt.entries[..]);
        if value < bestObjectiveValue {
          bestObjectiveValue := value;
          bestStepSize := t;
        }
      }
      RecordOne(ar, objective, x0.entries[..], dx.entries[..], f0, history, Evaluation(t, value, changed));
      history := history + [Evaluation(t, value, changed)];
    }

    /**
      search. The first evaluation at the initial step decides the branch: doubling when
      it improves on f0, halving otherwise. The halving loop of the source has no bound;
      here it stops after `fuel` halvings. A zero denominator, which would make the
      interpolated step infinite or NaN in MPFR, ends the search without that last
      evaluation.
    */
    method Search(temp: Vector, initialStepSize: real, fuel: nat)
      requires Valid() && temp.entries.Length == NumVars
      requires temp.entries != x0.entries && temp.entries != dx.entries
      modifies this, temp.entries
      ensures Valid()
      ensures bestObjectiveValue <= old(bestObjectiveValue)
      ensures |old(history)| < |history| && history[..|old(history)|] == old(history)
      ensures SearchTrace(ar, f0, initialStepSize, fuel, history[|old(history)|..])
    {
      ghost var h0 := history;
      var stepSize := initialStepSize;
      var f1, changed := EvaluateObjectiveFunction(temp, stepSize);
      ghost var first := Evaluation(stepSize, f1, changed);
      ghost var trace;
      if f1 < f0 {
        trace := DoublingPhase(temp, stepSize, f1, h0, first);
      } else {
        trace := HalvingPhase(temp, stepSize, f1, fuel, h0, first);
      }
      assert history[|h0|..] == trace;
    }

    /** The doubling branch of search, after the first evaluation improved on f0. */
    method DoublingPhase(temp: Vector, initialStepSize: real, initialValue: real,
                         ghost h0: seq<Evaluation>, ghost first: Evaluation)
      returns (ghost trace: seq<Evaluation>)
      requires Valid() && temp.entries.Length == NumVars
      requires temp.entries != x0.entries && temp.entries != dx.entries
      requires history == h0 + [first] && first == Evaluation(initialStepSize, initialValue, first.changed)
      requires initialValue < f0
      modifies this, temp.entries
      ensures Valid()
      ensures bestObjectiveValue <= old(bestObjectiveValue)
      ensures history == h0 + trace && 1 <= |trace| && trace[0] == first
      ensures DoublingTrace(ar, f0, trace)
    {
      trace := [first];
      var stepSize, nextStepSize, f1, f2 := initialStepSize, 0.0, initialValue, 0.0;
      var changed;
      var numIncreases := 0;
      while true
        invariant 0 <= numIncreases < 4 && |trace| == numIncreases + 1
        invariant history == h0 + trace && Valid()
        invariant bestObjectiveValue <= old(bestObjectiveValue)
        invariant trace[0] == first
        invariant stepSize == trace[numIncreases].step && f1 == trace[numIncreases].value
        invariant DoubledSteps(ar, trace, numIncreases) && Improving(trace, numIncreases)
        decreases 4 - numIncreases
      {
        nextStepSize := Mul2(ar, stepSize, 1);
        f2, changed := EvaluateObjectiveFunction(temp, nextStepSize);
        ghost var e := Evaluation(nextStepSize, f2, changed);
        GrowDoubled(ar, trace, e, numIncreases);
        GrowImproving(trace, e, numIncreases);
        AppendOne(h0, trace, e);
        trace := trace + [e];
        if f2 >= f1 {
          break;
        } else {
          stepSize, nextStepSize := nextStepSize, stepSize;
          f1, f2 := f2, f1;
          numIncreases := numIncreases + 1;
          if numIncreases >= 4 {
            DoublingStopsAfterFour(ar, f0, trace);
            return;
          }
        }
      }
      trace := DoublingInterpolation(temp, stepSize, f1, f2, h0, trace, numIncreases + 1);
    }

    /**
      The end of the doubling branch, after the doubled step at index L of the trace did
      not improve on the step s before it: denom = (2 f1 - f2) - f0 and
      numer = (4 f1 - f2) - 3 f0, then the step ((s / 2) numer) / denom is tried.
    */
    method DoublingInterpolation(temp: Vector, stepSize: real, f1: real, f2: real,
                                 ghost h0: seq<Evaluation>, ghost trace: seq<Evaluation>, ghost L: nat)
      returns (ghost trace': seq<Evaluation>)
      requires Valid() && temp.entries.Length == NumVars
      requires temp.entries != x0.entries && temp.entries != dx.entries
      requires history == h0 + trace && 1 <= L <= 4 && |trace| == L + 1 && trace[0].value < f0
      requires DoubledSteps(ar, trace, L) && Improving(trace, L - 1) && trace[L - 1].value <= trace[L].value
      requires f1 == trace[L - 1].value && f2 == trace[L].value && stepSize == trace[L - 1].step
      modifies this, temp.entries
      ensures Valid()
      ensures bestObjectiveValue <= old(bestObjectiveValue)
      ensures history == h0 + trace' && |trace| <= |trace'| && trace'[..|trace|] == trace
      ensures DoublingTrace(ar, f0, trace')
    {
      var denom := Mul2(ar, f1, 1);
      denom := Sub(ar, denom, f2);
      denom := Sub(ar, denom, f0);
      var numer := Mul2(ar, f1, 2);
      numer := Sub(ar, numer, f2);
      var threeF0 := Mul(ar, f0, 3.0);
      numer := Sub(ar, numer, threeF0);
      if denom == 0.0 {
        DoublingMeetsZeroDenominator(ar, f0, trace, L);
        return trace;
      }
      var nextStepSize := Div2(ar, stepSize, 1);
      nextStepSize := Mul(ar, nextStepSize, numer);
      nextStepSize := Div(ar, nextStepSize, denom);
      var value, changed := EvaluateObjectiveFunction(temp, nextStepSize);
      ghost var e := Evaluation(nextStepSize, value, changed);
      GrowDoubled(ar, trace, e, L);
      GrowImproving(trace, e, L - 1);
      AppendOne(h0, trace, e);
      trace' := trace + [e];
      DoublingInterpolates(ar, f0, trace', L);
    }

    /** The halving branch of search, after the first evaluation did not improve on f0. */
    method HalvingPhase(temp: Vector, initialStepSize: real, initialValue: real, fuel: nat,
                        ghost h0: seq<Evaluation>, ghost first: Evaluation)
      returns (ghost trace: seq<Evaluation>)
      requires Valid() && temp.entries.Length == NumVars
      requires temp.entries != x0.entries && temp.entries != dx.entries
      requires history == h0 + [first] && first == Evaluation(initialStepSize, initialValue, first.changed)
      requires f0 <= initialValue
      modifies this, temp.entries
      ensures Valid()
      ensures bestObjectiveValue <= old(bestObjectiveValue)
      ensures history == h0 + trace && 1 <= |trace| && trace[0] == first
      ensures HalvingTrace(ar, f0, fuel, trace)
    {
      trace := [first];
      var stepSize, nextStepSize, f1, f2 := initialStepSize, 0.0, initialValue, 0.0;
      var changed;
      var numHalvings := 0;
      while true
        invariant 0 <= numHalvings <= fuel && |trace| == numHalvings + 1
        invariant history == h0 + trace && Valid()
        invariant bestObjectiveValue <= old(bestObjectiveValue)
        invariant trace[0] == first
        invariant stepSize == trace[numHalvings].step && f1 == trace[numHalvings].value
        invariant HalvedSteps(ar, trace, numHalvings) && NotBelow(f0, trace, numHalvings)
        decreases fuel - numHalvings
      {
        if numHalvings == fuel {
          HalvingRunsOutOfFuel(ar, f0, fuel, trace);
          return;
        }
        nextStepSize := Div2(ar, stepSize, 1);
        f2, changed := EvaluateObjectiveFunction(temp, nextStepSize);
        ghost var e := Evaluation(nextStepSize, f2, changed);
        GrowHalved(ar, trace, e, numHalvings);
        GrowNotBelow(f0, trace, e, numHalvings);
        AppendOne(h0, trace, e);
        trace := trace + [e];
        if !changed {
          HalvingStopsUnmoved(ar, f0, fuel, trace, numHalvings + 1);
          return;
        }
        if f2 < f0 {
          break;
        } else {
          stepSize, nextStepSize := nextStepSize, stepSize;
          f1, f2 := f2, f1;
          numHalvings := numHalvings + 1;
        }
      }
      trace := HalvingInterpolation(temp, stepSize, f1, f2, fuel, h0, trace, numHalvings + 1);
    }

    /**
      The end of the halving branch, after the halved step at index L of the trace went
      below f0: f2 is doubled in place, denom = (f1 - f2) + f0, f2 is doubled again,
      numer = (f1 - f2) + 3 f0, then the step ((s / 4) numer) / denom is tried, s being
      the step before the halved one.
    */
    method HalvingInterpolation(temp: Vector, stepSize: real, f1: real, f2: real, ghost fuel: nat,
                                ghost h0: seq<Evaluation>, ghost trace: seq<Evaluation>, ghost L: nat)
      returns (ghost trace': seq<Evaluation>)
      requires Valid() && temp.entries.Length == NumVars
      requires temp.entries != x0.entries && temp.entries != dx.entries
      requires history == h0 + trace && 1 <= L && |trace| == L + 1 && f0 <= trace[0].value
      requires HalvedSteps(ar, trace, L) && NotBelow(f0, trace, L - 1) && trace[L].changed && trace[L].value < f0
      requires f1 == trace[L - 1].value && f2 == trace[L].value && stepSize == trace[L - 1].step
      modifies this, temp.entries
      ensures Valid()
      ensures bestObjectiveValue <= old(bestObjectiveValue)
      ensures history == h0 + trace' && |trace| <= |trace'| && trace'[..|trace|] == trace
      ensures HalvingTrace(ar, f0, fuel, trace')
    {
      var twiceF2 := Mul2(ar, f2, 1);
      var denom := Sub(ar, f1, twiceF2);
      denom := Add(ar, denom, f0);
      var fourF2 := Mul2(ar, twiceF2, 1);
      var numer := Sub(ar, f1, fourF2);
      var threeF0 := Mul(ar, f0, 3.0);
      numer := Add(ar, numer, threeF0);
      if denom == 0.0 {
        HalvingMeetsZeroDenominator(ar, f0, fuel, trace, L);
        return trace;
      }
      var nextStepSize := Div2(ar, stepSize, 2);
      nextStepSize := Mul(ar, nextStepSize, numer);
      nextStepSize := Div(ar, nextStepSize, denom);
      var value, changed := EvaluateObjectiveFunction(temp, nextStepSize);
      ghost var e := Evaluation(nextStepSize, value, changed);
      GrowHalved(ar, trace, e, L);
      GrowNotBelow(f0, trace, e, L - 1);
      AppendOne(h0, trace, e);
      trace' := trace + [e];
      HalvingInterpolates(ar, f0, fuel, trace', L);
    }
  }
}
