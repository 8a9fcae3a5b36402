/**
  The BFGS optimiser of the search driver.

  `BFGSOptimizer` holds the current point x with its objective value and gradient, the
  candidate point x_new of the next iteration, the approximate inverse Hessian and the
  run identifier. `Step` computes the candidate: it runs a line search along the
  normalised negative gradient and one along the quasi-Newton direction, keeps the
  better, and, unless the best step collapsed to zero, evaluates the candidate and
  updates the inverse Hessian. `Shift` then makes the candidate current.

  The objective and its partial derivatives are parameters (their generated bodies are
  not part of this model). The checkpoint file name that `write_to_file` builds is the
  function `CheckpointName`; its round trip through the recogniser and the readers of
  the file name module is proved below.
*/
module NonlinearOptimizers {
  import opened Scalars
  import opened Matrices
  import opened Vectors
  import opened FilenameHelpers
  import opened LineSearch
  import opened BfgsSubroutines

  datatype StepType = BFGS | GRAD | NONE

  /** 2^64: std::size_t and std::uint64_t wrap around modulo this. */
  const Word: nat := 0x1_0000_0000_0000_0000

  // ------------------------------------------------------------ checkpoint names

  /** The score clamp of write_to_file: below 0 becomes 0, above 9999 becomes 9999. */
  function ClampScore(score: int): (r: nat)
    ensures r <= 9999
    ensures 0 <= score <= 9999 ==> r == score
    ensures score < 0 ==> r == 0
    ensures 9999 < score ==> r == 9999
  {
    if score < 0 then 0 else if score > 9999 then 9999 else score
  }

  /**
    The name write_to_file builds: both scores in 4 decimal digits, "RKTK", the five
    run-identifier segments in 8, 4, 4, 4 and 12 upper-case hexadecimal digits, the
    iteration count in 12 decimal digits and ".txt", all zero-padded and '-'-separated.
  */
  function CheckpointName(fScore: int, gScore: int, seg0: nat, seg1: nat, seg2: nat, seg3: nat,
                          seg4: nat, iterCount: nat): (name: string)
    ensures 68 <= |name| && name[|name| - 4..] == ".txt"
  {
    var pf, pg := Padded(ClampScore(fScore), 10, 4), Padded(ClampScore(gScore), 10, 4);
    var p0, p1, p2 := Padded(seg0, 16, 8), Padded(seg1, 16, 4), Padded(seg2, 16, 4);
    var p3, p4, pi := Padded(seg3, 16, 4), Padded(seg4, 16, 12), Padded(iterCount, 10, 12);
    PaddedWidth(ClampScore(fScore), 10, 4);
    PaddedWidth(ClampScore(gScore), 10, 4);
    PaddedWidth(seg0, 16, 8);
    PaddedWidth(seg1, 16, 4);
    PaddedWidth(seg2, 16, 4);
    PaddedWidth(seg3, 16, 4);
    PaddedWidth(seg4, 16, 12);
    PaddedWidth(iterCount, 10, 12);
    Layout(pf, pg, p0, p1, p2, p3, p4, pi)
  }

  /**
    The segments fit their fields of 8, 4, 4, 4 and 12 hexadecimal digits, that is,
    they are below 16^8, 16^4, 16^4, 16^4 and 16^12.
  */
  ghost predicate SegmentsFit(seg0: nat, seg1: nat, seg2: nat, seg3: nat, seg4: nat)
  {
    seg0 < 0x1_0000_0000 && seg1 < 0x1_0000 && seg2 < 0x1_0000 && seg3 < 0x1_0000
    && seg4 < 0x1_0000_0000_0000
  }

  /** A field of digits inside a string: its characters are digits and it reads back as `field`. */
  lemma FieldAt(s: string, pre: string, field: string, post: string, base: nat)
    requires s == pre + field + post && IsBase(base) && AllDigits(field, base)
    ensures |pre| + |field| <= |s|
    ensures s[|pre|..|pre| + |field|] == field
    ensures AllHex(s, |pre|, |pre| + |field|)
    ensures base == 10 ==> AllDec(s, |pre|, |pre| + |field|)
  {
    assert s[|pre|..|pre| + |field|] == field;
    forall i | |pre| <= i < |pre| + |field|
      ensures IsDigit(s[i], base)
    {
      assert s[i] == field[i - |pre|];
    }
  }

  /** The layout of a checkpoint name, for any fields of the right widths and digits. */
  function Layout(pf: string, pg: string, p0: string, p1: string, p2: string, p3: string,
                  p4: string, pi: string): (name: string)
    ensures |name| == |pf| + |pg| + |p0| + |p1| + |p2| + |p3| + |p4| + |pi| + 16
    ensures name[|name| - 4..] == ".txt"
  {
    pf + "-" + pg + "-RKTK-" + p0 + "-" + p1 + "-" + p2 + "-" + p3 + "-" + p4 + "-" + pi + ".txt"
  }

  /** The width and digit requirements on the fields of a checkpoint name. */
  ghost predicate FieldsFit(pf: string, pg: string, p0: string, p1: string, p2: string, p3: string,
                            p4: string, pi: string)
  {
    |pf| == 4 && |pg| == 4 && |p0| == 8 && |p1| == 4 && |p2| == 4 && |p3| == 4
    && |p4| == 12 && |pi| == 12
    && AllDigits(pf, 10) && AllDigits(pg, 10) && AllDigits(pi, 10)
    && AllDigits(p0, 16) && AllDigits(p1, 16) && AllDigits(p2, 16) && AllDigits(p3, 16)
    && AllDigits(p4, 16)
  }

  /** Fields of widths 4, 4, 8, 4, 4, 4, 12, 12 make a recognised name, found where they were put. */
  lemma LayoutRecognised(pf: string, pg: string, p0: string, p1: string, p2: string, p3: string,
                         p4: string, pi: string)
    requires FieldsFit(pf, pg, p0, p1, p2, p3, p4, pi)
    ensures var name := Layout(pf, pg, p0, p1, p2, p3, p4, pi);
      |name| == 68 && IsRktkFilename(name)
      && name[15..23] == p0 && name[24..28] == p1 && name[29..33] == p2 && name[34..38] == p3
      && name[39..51] == p4 && name[52..64] == pi
  {
    LayoutFields(pf, pg, p0, p1, p2, p3, p4, pi);
    LayoutSeparators(pf, pg, p0, p1, p2, p3, p4, pi);
  }

  /** Each field of the layout sits at its offset and holds digits of its base. */
  lemma LayoutFields(pf: string, pg: string, p0: string, p1: string, p2: string, p3: string,
                     p4: string, pi: string)
    requires FieldsFit(pf, pg, p0, p1, p2, p3, p4, pi)
    ensures var name := Layout(pf, pg, p0, p1, p2, p3, p4, pi);
      |name| == 68
      && name[15..23] == p0 && name[24..28] == p1 && name[29..33] == p2 && name[34..38] == p3
      && name[39..51] == p4 && name[52..64] == pi
      && AllDec(name, 0, 4) && AllDec(name, 5, 9) && AllHex(name, 15, 23) && AllHex(name, 24, 28)
      && AllHex(name, 29, 33) && AllHex(name, 34, 38) && AllHex(name, 39, 51) && AllDec(name, 52, 64)
  {
    var name := Layout(pf, pg, p0, p1, p2, p3, p4, pi);
    var a0 := pf + "-";
    var a1 := a0 + pg + "-RKTK-";
    var a2 := a1 + p0 + "-";
    var a3 := a2 + p1 + "-";
    var a4 := a3 + p2 + "-";
    var a5 := a4 + p3 + "-";
    var a6 := a5 + p4 + "-";
    assert name == a6 + pi + ".txt";
    FieldAt(name, [], pf, name[4..], 10);
    FieldAt(name, a0, pg, name[9..], 10);
    FieldAt(name, a1, p0, name[23..], 16);
    FieldAt(name, a2, p1, name[28..], 16);
    FieldAt(name, a3, p2, name[33..], 16);
    FieldAt(name, a4, p3, name[38..], 16);
    FieldAt(name, a5, p4, name[51..], 16);
    FieldAt(name, a6, pi, ".txt", 10);
  }

  /** The separators, the marker and the extension sit at their fixed positions. */
  lemma LayoutSeparators(pf: string, pg: string, p0: string, p1: string, p2: string, p3: string,
                         p4: string, pi: string)
    requires FieldsFit(pf, pg, p0, p1, p2, p3, p4, pi)
    ensures var name := Layout(pf, pg, p0, p1, p2, p3, p4, pi);
      |name| == 68 && name[4] == '-' && name[9] == '-' && name[10..15] == "RKTK-"
      && name[23] == '-' && name[28] == '-' && name[33] == '-' && name[38] == '-' && name[51] == '-'
      && name[64..] == ".txt"
  {
    var name := Layout(pf, pg, p0, p1, p2, p3, p4, pi);
    var a1 := pf + "-" + pg + "-RKTK-";
    var a3 := a1 + p0 + "-" + p1 + "-";
    var a6 := a3 + p2 + "-" + p3 + "-" + p4 + "-";
    assert name == a6 + pi + ".txt";
    assert a6 == a3 + (p2 + "-" + p3 + "-" + p4 + "-");
    assert a3 == a1 + (p0 + "-" + p1 + "-");
    assert a1 == pf + ("-" + pg + "-RKTK-");
  }

  /**
    The round trip of the checkpoint name: when the segments fit their fields and the
    iteration count has at most 12 digits, the name is 68 characters long, the
    recogniser accepts it, and reading positions 52-64 and the five hexadecimal ranges
    gives back the iteration count and the segments.
  */
  lemma CheckpointNameRoundTrip(fScore: int, gScore: int, seg0: nat, seg1: nat, seg2: nat,
                                seg3: nat, seg4: nat, iterCount: nat)
    requires SegmentsFit(seg0, seg1, seg2, seg3, seg4) && iterCount < Pow(10, 12)
    ensures var name := CheckpointName(fScore, gScore, seg0, seg1, seg2, seg3, seg4, iterCount);
      |name| == 68 && IsRktkFilename(name)
      && DecSubstrToInt(name, 52, 64) == iterCount
      && HexSubstrToInt(name, 15, 23) == seg0
      && HexSubstrToInt(name, 24, 28) == seg1
      && HexSubstrToInt(name, 29, 33) == seg2
      && HexSubstrToInt(name, 34, 38) == seg3
      && HexSubstrToInt(name, 39, 51) == seg4
  {
    var f, g := ClampScore(fScore), ClampScore(gScore);
    PowValues();
    PaddedRoundTrip(f, 10, 4);
    PaddedRoundTrip(g, 10, 4);
    PaddedRoundTrip(seg0, 16, 8);
    PaddedRoundTrip(seg1, 16, 4);
    PaddedRoundTrip(seg2, 16, 4);
    PaddedRoundTrip(seg3, 16, 4);
    PaddedRoundTrip(seg4, 16, 12);
    PaddedRoundTrip(iterCount, 10, 12);
    var pf, pg := Padded(f, 10, 4), Padded(g, 10, 4);
    var p0, p1, p2 := Padded(seg0, 16, 8), Padded(seg1, 16, 4), Padded(seg2, 16, 4);
    var p3, p4, pi := Padded(seg3, 16, 4), Padded(seg4, 16, 12), Padded(iterCount, 10, 12);
    LayoutRecognised(pf, pg, p0, p1, p2, p3, p4, pi);
    assert CheckpointName(fScore, gScore, seg0, seg1, seg2, seg3, seg4, iterCount)
        == Layout(pf, pg, p0, p1, p2, p3, p4, pi);
  }

  /** A count of 13 or more digits overflows its field, and the name is no longer recognised. */
  lemma CheckpointNameOverflow(fScore: int, gScore: int, seg0: nat, seg1: nat, seg2: nat,
                               seg3: nat, seg4: nat, iterCount: nat)
    requires Pow(10, 12) <= iterCount
    ensures !IsRktkFilename(CheckpointName(fScore, gScore, seg0, seg1, seg2, seg3, seg4, iterCount))
  {
    var f, g := ClampScore(fScore), ClampScore(gScore);
    PowValues();
    PaddedRoundTrip(f, 10, 4);
    PaddedRoundTrip(g, 10, 4);
    PaddedOverflow(iterCount, 10, 12);
    PaddedWidth(seg0, 16, 8);
    PaddedWidth(seg1, 16, 4);
    PaddedWidth(seg2, 16, 4);
    PaddedWidth(seg3, 16, 4);
    PaddedWidth(seg4, 16, 12);
  }

  lemma PaddedWidth(v: nat, base: nat, width: nat)
    requires IsBase(base)
    ensures |Padded(v, base, width)| >= width
  {
  }

  lemma PowValues()
    ensures Pow(10, 4) == 10000 && Pow(10, 12) == 1_000_000_000_000
    ensures Pow(16, 4) == 0x1_0000 && Pow(16, 8) == 0x1_0000_0000 && Pow(16, 12) == 0x1_0000_0000_0000
  {
    assert Pow(10, 2) == 100;
    assert Pow(10, 4) == 10000;
    assert Pow(10, 6) == 1_000_000;
    assert Pow(10, 8) == 100_000_000;
    assert Pow(10, 10) == 10_000_000_000;
    assert Pow(16, 2) == 0x100;
    assert Pow(16, 4) == 0x1_0000;
    assert Pow(16, 6) == 0x100_0000;
    assert Pow(16, 8) == 0x1_0000_0000;
    assert Pow(16, 10) == 0x100_0000_0000;
  }

  // ------------------------------------------------------------ run identifiers

  /** The masks the initialisers apply to the five draws: 32, 16, 16, 16 and 48 one-bits. */
  const Mask32: nat := 0xFFFF_FFFF
  const Mask16: nat := 0xFFFF
  const Mask48: nat := 0xFFFF_FFFF_FFFF

  /** `draw & mask` for a mask made of low one-bits: the remainder modulo mask + 1. */
  function Masked(draw: nat, mask: nat): (r: nat)
    ensures r <= mask
    ensures draw <= mask ==> r == draw
  {
    draw % (mask + 1)
  }

  // ------------------------------------------------------------ the optimiser

  /** The gradient at x, one partial derivative per variable. */
  function GradientAt(partial: (seq<real>, nat) -> real, x: seq<real>): (g: seq<real>)
    ensures |g| == NumVars && forall i :: 0 <= i < NumVars ==> g[i] == partial(x, i)
  {
    seq(NumVars, i requires 0 <= i < NumVars => partial(x, i))
  }

  /** The normalised descent direction negate_and_normalize leaves in a vector v: -v / |v|. */
  function Descent(ar: Arith, v: seq<real>): seq<real>
    requires 1 <= |v| && NormValue(ar, v) != 0.0
  {
    Scaled(ar, Div(ar, -1.0, NormValue(ar, v)), v)
  }

  /** The step size set_step_size sets: 1 divided by 2^(prec / 2). */
  function InitialStepSize(ar: Arith, prec: nat): real
  {
    Div2(ar, ar.rnd(1.0), prec / 2)
  }

  /** In exact arithmetic the initial step size is 2^-(prec / 2): positive and at most 1. */
  lemma ExactInitialStepSize(ar: Arith, prec: nat)
    requires Exact(ar)
    ensures 0.0 < InitialStepSize(ar, prec) <= 1.0
    ensures InitialStepSize(ar, prec) * Pow2(prec / 2) == 1.0
  {
    var p := Pow2(prec / 2);
    assert InitialStepSize(ar, prec) == 1.0 / p;
    QuotientTimesDivisor(1.0, p);
  }

  /**
    How a call of `Step` ends: with a candidate point (`Stepped`), with a best step of
    zero (`Converged`), or where the source's nan_check would end the process
    (`Invalid`: a zero norm to normalise by, or a zero curvature to divide by).
  */
  datatype StepOutcome = Stepped | Converged | Invalid

  class BFGSOptimizer {
    const ar: Arith
    const prec: nat
    const objective: seq<real> -> real
    const partial: (seq<real>, nat) -> real

    var stepType: StepType

    const x: Vector
    const xNew: Vector
    const grad: Vector
    const gradNew: Vector
    const gradDelta: Vector
    var xNorm: real
    var xNewNorm: real
    var gradNorm: real
    var gradNewNorm: real

    var func: real
    var funcGrad: real
    var funcNew: real
    var stepSize: real
    var stepSizeGrad: real
    var stepSizeNew: real
    const gradDir: Vector
    const stepDir: Vector

    const hessInv: Matrix
    /** The workspace of update_inverse_hessian, which the source keeps in a static. */
    const kappa: Vector

    var iterCount: nat
    var uuidSeg0: nat
    var uuidSeg1: nat
    var uuidSeg2: nat
    var uuidSeg3: nat
    var uuidSeg4: nat

    /** Every vector and the matrix have their own storage, of the right size. */
    ghost predicate Valid()
    {
      IsRounding(ar)
      && x.entries.Length == NumVars && xNew.entries.Length == NumVars
      && grad.entries.Length == NumVars && gradNew.entries.Length == NumVars
      && gradDelta.entries.Length == NumVars && gradDir.entries.Length == NumVars
      && stepDir.entries.Length == NumVars && kappa.entries.Length == NumVars
      && hessInv.entries.Length == NumVars * NumVars
      && Separate()
    }

    ghost predicate Separate()
    {
      x.entries != xNew.entries && x.entries != grad.entries && x.entries != gradNew.entries &&
      x.entries != gradDelta.entries && x.entries != gradDir.entries &&
      x.entries != stepDir.entries && x.entries != kappa.entries && x.entries != hessInv.entries &&
      xNew.entries != grad.entries && xNew.entries != gradNew.entries &&
      xNew.entries != gradDelta.entries && xNew.entries != gradDir.entries &&
      xNew.entries != stepDir.entries && xNew.entries != kappa.entries &&
      xNew.entries != hessInv.entries && grad.entries != gradNew.entries &&
      grad.entries != gradDelta.entries && grad.entries != gradDir.entries &&
      grad.entries != stepDir.entries && grad.entries != kappa.entries &&
      grad.entries != hessInv.entries && gradNew.entries != gradDelta.entries &&
      gradNew.entries != gradDir.entries && gradNew.entries != stepDir.entries &&
      gradNew.entries != kappa.entries && gradNew.entries != hessInv.entries &&
      gradDelta.entries != gradDir.entries && gradDelta.entries != stepDir.entries &&
      gradDelta.entries != kappa.entries && gradDelta.entries != hessInv.entries &&
      gradDir.entries != stepDir.entries && gradDir.entries != kappa.entries &&
      gradDir.entries != hessInv.entries && stepDir.entries != kappa.entries &&
      stepDir.entries != hessInv.entries && kappa.entries != hessInv.entries
    }

    /** The current point holds values at the run's precision, as every MPFR variable does. */
    ghost predicate OnGrid()
      reads x.entries
    {
      AllRepresentable(ar, x.entries[..])
    }

    /** The value, gradient and norms of the current point belong to it. */
    ghost predicate Current()
      reads x.entries, grad.entries, this`func, this`xNorm, this`gradNorm
      requires Valid()
    {
      func == objective(x.entries[..]) && grad.entries[..] == GradientAt(partial, x.entries[..])
      && xNorm == NormValue(ar, x.entries[..]) && gradNorm == NormValue(ar, grad.entries[..])
    }

    /** The value, gradient and norms of the candidate point belong to it. */
    ghost predicate Candidate()
      reads xNew.entries, gradNew.entries, this`funcNew, this`xNewNorm, this`gradNewNorm
      requires Valid()
    {
      funcNew == objective(xNew.entries[..]) && gradNew.entries[..] == GradientAt(partial, xNew.entries[..])
      && xNewNorm == NormValue(ar, xNew.entries[..]) && gradNewNorm == NormValue(ar, gradNew.entries[..])
    }

    /**
      The constructor allocates the vectors and the matrix; their entries are unset (NaN
      in MPFR). The iteration count and the run identifier start at their maxima and the
      step type at NONE.
    */
    constructor (ar: Arith, prec: nat, objective: seq<real> -> real, partial: (seq<real>, nat) -> real)
      requires IsRounding(ar)
      ensures Valid()
      ensures this.ar == ar && this.prec == prec && this.objective == objective && this.partial == partial
      ensures stepType == NONE && iterCount == Word - 1
      ensures uuidSeg0 == Word - 1 && uuidSeg1 == Word - 1 && uuidSeg2 == Word - 1
      ensures uuidSeg3 == Word - 1 && uuidSeg4 == Word - 1
    {
      this.ar := ar;
      this.prec := prec;
      this.objective := objective;
      this.partial := partial;
      stepType := NONE;
      x := new Vector();
      xNew := new Vector();
      grad := new Vector();
      gradNew := new Vector();
      gradDelta := new Vector();
      gradDir := new Vector();
      stepDir := new Vector();
      hessInv := new Matrix();
      kappa := new Vector();
      iterCount := Word - 1;
      uuidSeg0 := Word - 1;
      uuidSeg1 := Word - 1;
      uuidSeg2 := Word - 1;
      uuidSeg3 := Word - 1;
      uuidSeg4 := Word - 1;
    }

    /**
      initialize_random: x_i is the i-th uniform sample rounded to the run's precision;
      then the shared start (norm, value, gradient, zero step, identity Hessian), a zero
      iteration count and the five masked draws as the run identifier. The samples and
      the draws are parameters: they come from a random engine.
    */
    method InitializeRandom(samples: seq<real>, r0: nat, r1: nat, r2: nat, r3: nat, r4: nat)
      requires Valid() && |samples| == NumVars
      modifies x.entries, grad.entries, hessInv.entries
      modifies this`xNorm, this`func, this`gradNorm, this`stepSize, this`iterCount
      modifies this`uuidSeg0, this`uuidSeg1, this`uuidSeg2, this`uuidSeg3, this`uuidSeg4
      ensures Valid() && OnGrid() && Current()
      ensures x.entries[..] == Rounded(ar, samples)
      ensures stepSize == 0.0 && IsIdentity(hessInv.entries[..], NumVars) && iterCount == 0
      ensures uuidSeg0 == Masked(r0, Mask32) && uuidSeg1 == Masked(r1, Mask16) && uuidSeg2 == Masked(r2, Mask16)
      ensures uuidSeg3 == Masked(r3, Mask16) && uuidSeg4 == Masked(r4, Mask48)
    {
      var ok := ReadPoint(samples);
      assert samples[..NumVars] == samples;
      RoundedOnGrid(ar, samples);
      EvaluateStart();
      NewRun(r0, r1, r2, r3, r4);
    }

    /**
      initialize_from_file: x_i is the i-th number of the file rounded to the run's
      precision. `values` are the numbers the file holds; fewer than NUM_VARS of them
      is the read error on which the source ends the process, here `ok == false`. A
      recognised checkpoint name gives the iteration count and the run identifier;
      any other name gives a zero count and five masked draws.
    */
    method InitializeFromFile(filename: string, values: seq<real>, r0: nat, r1: nat, r2: nat, r3: nat,
                              r4: nat) returns (ok: bool)
      requires Valid()
      modifies x.entries, grad.entries, hessInv.entries
      modifies this`xNorm, this`func, this`gradNorm, this`stepSize, this`iterCount
      modifies this`uuidSeg0, this`uuidSeg1, this`uuidSeg2, this`uuidSeg3, this`uuidSeg4
      ensures Valid()
      ensures ok <==> NumVars <= |values|
      ensures ok ==> OnGrid() && Current() && x.entries[..] == Rounded(ar, values[..NumVars])
      ensures ok ==> stepSize == 0.0 && IsIdentity(hessInv.entries[..], NumVars)
      ensures ok ==> RunIdentified(filename, r0, r1, r2, r3, r4)
    {
      ok := ReadPoint(values);
      if !ok {
        return;
      }
      RoundedOnGrid(ar, values[..NumVars]);
      EvaluateStart();
      IdentifyRun(filename, r0, r1, r2, r3, r4);
    }

    /**
      The end of initialize_from_file (lines 149-169): a recognised checkpoint name gives
      the iteration count and the run identifier; any other name gives a zero count and
      five masked draws.
    */
    method IdentifyRun(filename: string, r0: nat, r1: nat, r2: nat, r3: nat, r4: nat)
      modifies this`iterCount, this`uuidSeg0, this`uuidSeg1, this`uuidSeg2, this`uuidSeg3, this`uuidSeg4
      ensures RunIdentified(filename, r0, r1, r2, r3, r4)
    {
      var recognised := CheckRktkFilename(filename);
      if recognised {
        iterCount := DecSubstrToInt(filename, 52, 64);
        uuidSeg0, uuidSeg1, uuidSeg2, uuidSeg3, uuidSeg4 :=
          HexSubstrToInt(filename, 15, 23), HexSubstrToInt(filename, 24, 28), HexSubstrToInt(filename, 29, 33),
          HexSubstrToInt(filename, 34, 38), HexSubstrToInt(filename, 39, 51);
      } else {
        NewRun(r0, r1, r2, r3, r4);
      }
    }

    /**
      A new run, as both initialisers start one: a zero iteration count and five draws
      masked to 32, 16, 16, 16 and 48 bits as the run identifier, which then fits the
      fields of the checkpoint name.
    */
    method NewRun(r0: nat, r1: nat, r2: nat, r3: nat, r4: nat)
      modifies this`iterCount, this`uuidSeg0, this`uuidSeg1, this`uuidSeg2, this`uuidSeg3, this`uuidSeg4
      ensures iterCount == 0
      ensures uuidSeg0 == Masked(r0, Mask32) && uuidSeg1 == Masked(r1, Mask16) && uuidSeg2 == Masked(r2, Mask16)
      ensures uuidSeg3 == Masked(r3, Mask16) && uuidSeg4 == Masked(r4, Mask48)
      ensures SegmentsFit(uuidSeg0, uuidSeg1, uuidSeg2, uuidSeg3, uuidSeg4)
    {
      iterCount := 0;
      uuidSeg0 := Masked(r0, Mask32);
      uuidSeg1 := Masked(r1, Mask16);
      uuidSeg2 := Masked(r2, Mask16);
      uuidSeg3 := Masked(r3, Mask16);
      uuidSeg4 := Masked(r4, Mask48);
    }

    /**
      The reading loop of initialize_from_file: x_i is the i-th value rounded to the
      run's precision, until the values run out, which is the read error.
    */
    method ReadPoint(values: seq<real>) returns (ok: bool)
      requires Valid()
      modifies x.entries
      ensures ok <==> NumVars <= |values|
      ensures ok ==> x.entries[..] == Rounded(ar, values[..NumVars])
    {
      var i := 0;
      while i < NumVars
        invariant 0 <= i <= NumVars && i <= |values|
        invariant forall k :: 0 <= k < i ==> x.entries[k] == ar.rnd(values[k])
      {
        if i == |values| {
          return false;
        }
        x.entries[i] := ar.rnd(values[i]);
        i := i + 1;
      }
      assert x.entries[..] == Rounded(ar, values[..NumVars]);
      return true;
    }

    /**
      The start both initialisers share once x is set: its norm, the objective and the
      gradient at x and the gradient's norm, a zero step size and an identity inverse
      Hessian.
    */
    method EvaluateStart()
      requires Valid()
      modifies grad.entries, hessInv.entries, this`xNorm, this`func, this`gradNorm, this`stepSize
      ensures Current() && stepSize == 0.0 && IsIdentity(hessInv.entries[..], NumVars)
    {
      xNorm := x.Norm(ar);
      func := objective(x.entries[..]);
      ObjectiveGradient(partial, grad, x);
      gradNorm := grad.Norm(ar);
      stepSize := 0.0;
      hessInv.SetIdentityMatrix();
    }

    /**
      The iteration count and run identifier initialize_from_file leaves: read from a
      recognised checkpoint name, or zero and five masked draws for any other name.
    */
    ghost predicate RunIdentified(filename: string, r0: nat, r1: nat, r2: nat, r3: nat, r4: nat)
      reads this`iterCount, this`uuidSeg0, this`uuidSeg1, this`uuidSeg2, this`uuidSeg3, this`uuidSeg4
    {
      if IsRktkFilename(filename) then
        |filename| == 68 && iterCount == DecSubstrToInt(filename, 52, 64)
        && uuidSeg0 == HexSubstrToInt(filename, 15, 23) && uuidSeg1 == HexSubstrToInt(filename, 24, 28)
        && uuidSeg2 == HexSubstrToInt(filename, 29, 33) && uuidSeg3 == HexSubstrToInt(filename, 34, 38)
        && uuidSeg4 == HexSubstrToInt(filename, 39, 51)
      else
        iterCount == 0 && uuidSeg0 == Masked(r0, Mask32) && uuidSeg1 == Masked(r1, Mask16)
        && uuidSeg2 == Masked(r2, Mask16) && uuidSeg3 == Masked(r3, Mask16) && uuidSeg4 == Masked(r4, Mask48)
    }

    /**
      objective_function_has_decreased, which is the comparison itself. What it means is
      stated by `Step`: after a step that is not `Invalid`, it holds exactly when the
      outcome is `Stepped`.
    */
    predicate ObjectiveFunctionHasDecreased(): (decreased: bool)
      reads this`funcNew, this`func
      ensures decreased <==> funcNew < func
    {
      funcNew < func
    }

    /** set_step_size: 1, then divided by 2^(prec / 2). */
    method SetStepSize()
      modifies this`stepSize
      ensures stepSize == InitialStepSize(ar, prec)
    {
      stepSize := ar.rnd(1.0);
      stepSize := Div2(ar, stepSize, prec / 2);
    }

    /**
      step. The gradient direction is -grad / |grad| and the quasi-Newton direction is
      -(H grad) / |H grad|; a line search runs along each from x, both starting at the
      current step size. The gradient direction wins only when its value is strictly
      lower, and then H is reset to the identity. A best step of zero ends the call;
      otherwise the candidate is x + t d, with its value, gradient and norms, and H
      receives the BFGS update for the gradient change and the step. `bfgsValue` and
      `bfgsStep` are the result of the quasi-Newton search, `gradTrace` and `bfgsTrace`
      the evaluations of the two searches, and `hessBefore` the matrix the update starts
      from.
    */
    method Step(fuel: nat)
      returns (outcome: StepOutcome, ghost bfgsValue: real, ghost hessBefore: seq<real>,
               ghost bfgsStep: real, ghost gradTrace: seq<Evaluation>, ghost bfgsTrace: seq<Evaluation>)
      requires Valid() && OnGrid()
      modifies xNew.entries, gradNew.entries, gradDelta.entries, gradDir.entries, stepDir.entries
      modifies hessInv.entries, kappa.entries
      modifies this`stepType, this`funcGrad, this`funcNew, this`stepSizeGrad, this`stepSizeNew
      modifies this`xNewNorm, this`gradNewNorm
      ensures Valid() && OnGrid()
      ensures outcome == Invalid <==>
        NormValue(ar, grad.entries[..]) == 0.0
        || NormValue(ar, MatVec(ar, old(hessInv.entries[..]), grad.entries[..], NumVars)) == 0.0
        || (stepSizeNew != 0.0 && !Defined(ar, gradDelta.entries[..], stepSizeNew, stepDir.entries[..]))
      ensures outcome != Invalid ==>
        NormValue(ar, grad.entries[..]) != 0.0 && gradDir.entries[..] == Descent(ar, grad.entries[..])
      ensures var hg := MatVec(ar, old(hessInv.entries[..]), grad.entries[..], NumVars);
        NormValue(ar, grad.entries[..]) != 0.0 && NormValue(ar, hg) != 0.0 ==>
        SearchResult(ar, objective, x.entries[..], Descent(ar, grad.entries[..]), func, stepSize, fuel,
                     gradTrace, funcGrad, stepSizeGrad)
        && SearchResult(ar, objective, x.entries[..], Descent(ar, hg), func, stepSize, fuel,
                        bfgsTrace, bfgsValue, bfgsStep)
      ensures outcome != Invalid ==> stepType != NONE && |hessBefore| == NumVars * NumVars
      ensures outcome != Invalid ==> (stepType == GRAD <==> funcGrad < bfgsValue)
      ensures outcome != Invalid && stepType == GRAD ==>
        stepDir.entries[..] == gradDir.entries[..] && IsIdentity(hessBefore, NumVars)
        && stepSizeNew == stepSizeGrad
      ensures outcome != Invalid && stepType == BFGS ==>
        var hg := MatVec(ar, old(hessInv.entries[..]), grad.entries[..], NumVars);
        NormValue(ar, hg) != 0.0 && stepDir.entries[..] == Descent(ar, hg) && hessBefore == old(hessInv.entries[..])
        && stepSizeNew == bfgsStep
      ensures outcome != Invalid ==> (outcome == Converged <==> stepSizeNew == 0.0)
      ensures outcome != Invalid ==> (ObjectiveFunctionHasDecreased() <==> outcome == Stepped)
      ensures outcome == Converged ==>
        funcNew == func && hessInv.entries[..] == hessBefore
        && xNew.entries[..] == old(xNew.entries[..]) && gradNew.entries[..] == old(gradNew.entries[..])
        && gradDelta.entries[..] == old(gradDelta.entries[..])
        && xNewNorm == old(xNewNorm) && gradNewNorm == old(gradNewNorm)
      ensures outcome == Stepped ==>
        xNew.entries[..] == Axpy(ar, stepSizeNew, stepDir.entries[..], x.entries[..])
        && xNew.entries[..] != x.entries[..] && Candidate() && AllRepresentable(ar, xNew.entries[..])
        && gradDelta.entries[..] == Difference(ar, gradNew.entries[..], grad.entries[..])
        && Defined(ar, gradDelta.entries[..], stepSizeNew, stepDir.entries[..])
        && IsUpdate(ar, hessBefore, hessInv.entries[..], NumVars, gradDelta.entries[..], stepSizeNew,
                    stepDir.entries[..])
    {
      hessBefore := hessInv.entries[..];
      bfgsValue, bfgsStep, gradTrace, bfgsTrace := func, 0.0, [], [];
      var ok := Directions();
      if !ok {
        outcome := Invalid;
        return;
      }
      outcome, bfgsValue, hessBefore, bfgsStep, gradTrace, bfgsTrace := Descend(fuel);
    }

    /**
      The rest of step once both directions are set (lines 266-308): the two searches
      and the choice between them, the early return on a zero best step, and otherwise
      the move to the candidate with the update of H.
    */
    method Descend(fuel: nat)
      returns (outcome: StepOutcome, ghost bfgsValue: real, ghost hessBefore: seq<real>,
               ghost bfgsStep: real, ghost gradTrace: seq<Evaluation>, ghost bfgsTrace: seq<Evaluation>)
      requires Valid() && OnGrid()
      modifies xNew.entries, gradNew.entries, gradDelta.entries, stepDir.entries
      modifies hessInv.entries, kappa.entries
      modifies this`stepType, this`funcGrad, this`funcNew, this`stepSizeGrad, this`stepSizeNew
      modifies this`xNewNorm, this`gradNewNorm
      ensures SearchResult(ar, objective, x.entries[..], gradDir.entries[..], func, stepSize, fuel,
                           gradTrace, funcGrad, stepSizeGrad)
      ensures SearchResult(ar, objective, x.entries[..], old(stepDir.entries[..]), func, stepSize, fuel,
                           bfgsTrace, bfgsValue, bfgsStep)
      ensures stepType != NONE && |hessBefore| == NumVars * NumVars
      ensures stepType == GRAD <==> funcGrad < bfgsValue
      ensures stepType == GRAD ==>
        stepDir.entries[..] == gradDir.entries[..] && IsIdentity(hessBefore, NumVars)
        && stepSizeNew == stepSizeGrad
      ensures stepType == BFGS ==>
        stepDir.entries[..] == old(stepDir.entries[..]) && hessBefore == old(hessInv.entries[..])
        && stepSizeNew == bfgsStep
      ensures outcome == Converged <==> stepSizeNew == 0.0
      ensures outcome == Stepped <==>
        stepSizeNew != 0.0 && Defined(ar, gradDelta.entries[..], stepSizeNew, stepDir.entries[..])
      ensures outcome != Invalid ==> (ObjectiveFunctionHasDecreased() <==> outcome == Stepped)
      ensures outcome == Invalid ==>
        xNew.entries[..] == Axpy(ar, stepSizeNew, stepDir.entries[..], x.entries[..])
        && Candidate() && funcNew < func && hessInv.entries[..] == hessBefore
        && gradDelta.entries[..] == Difference(ar, gradNew.entries[..], grad.entries[..])
      ensures outcome == Converged ==>
        funcNew == func && hessInv.entries[..] == hessBefore
        && xNew.entries[..] == old(xNew.entries[..]) && gradNew.entries[..] == old(gradNew.entries[..])
        && gradDelta.entries[..] == old(gradDelta.entries[..])
        && xNewNorm == old(xNewNorm) && gradNewNorm == old(gradNewNorm)
      ensures outcome == Stepped ==>
        xNew.entries[..] == Axpy(ar, stepSizeNew, stepDir.entries[..], x.entries[..])
        && xNew.entries[..] != x.entries[..] && Candidate() && AllRepresentable(ar, xNew.entries[..])
        && gradDelta.entries[..] == Difference(ar, gradNew.entries[..], grad.entries[..])
        && Defined(ar, gradDelta.entries[..], stepSizeNew, stepDir.entries[..])
        && IsUpdate(ar, hessBefore, hessInv.entries[..], NumVars, gradDelta.entries[..], stepSizeNew,
                    stepDir.entries[..])
    {
      bfgsValue, bfgsStep, gradTrace, bfgsTrace := Searches(fuel);
      hessBefore := hessInv.entries[..];
      outcome := Advance();
    }

    /**
      The end of step once a search is chosen (lines 286-308): a best step of zero
      returns at once, leaving the candidate, the gradient change and H as they were;
      any other step moves to the candidate and updates H.
    */
    method Advance() returns (outcome: StepOutcome)
      requires Valid() && OnGrid()
      requires ConsistentBest(ar, objective, x.entries[..], stepDir.entries[..], func, funcNew, stepSizeNew)
      modifies xNew.entries, gradNew.entries, gradDelta.entries, hessInv.entries, kappa.entries
      modifies this`funcNew, this`xNewNorm, this`gradNewNorm
      ensures outcome == Converged <==> stepSizeNew == 0.0
      ensures outcome == Stepped <==>
        stepSizeNew != 0.0 && Defined(ar, gradDelta.entries[..], stepSizeNew, stepDir.entries[..])
      ensures outcome != Invalid ==> (ObjectiveFunctionHasDecreased() <==> outcome == Stepped)
      ensures outcome != Converged ==>
        xNew.entries[..] == Axpy(ar, stepSizeNew, stepDir.entries[..], x.entries[..])
        && Candidate() && funcNew < func
        && gradDelta.entries[..] == Difference(ar, gradNew.entries[..], grad.entries[..])
      ensures outcome == Invalid ==> hessInv.entries[..] == old(hessInv.entries[..])
      ensures outcome == Converged ==>
        funcNew == func && hessInv.entries[..] == old(hessInv.entries[..])
        && xNew.entries[..] == old(xNew.entries[..]) && gradNew.entries[..] == old(gradNew.entries[..])
        && gradDelta.entries[..] == old(gradDelta.entries[..])
        && xNewNorm == old(xNewNorm) && gradNewNorm == old(gradNewNorm)
      ensures outcome == Stepped ==>
        xNew.entries[..] == Axpy(ar, stepSizeNew, stepDir.entries[..], x.entries[..])
        && xNew.entries[..] != x.entries[..] && Candidate() && AllRepresentable(ar, xNew.entries[..])
        && gradDelta.entries[..] == Difference(ar, gradNew.entries[..], grad.entries[..])
        && Defined(ar, gradDelta.entries[..], stepSizeNew, stepDir.entries[..])
        && IsUpdate(ar, old(hessInv.entries[..]), hessInv.entries[..], NumVars, gradDelta.entries[..],
                    stepSizeNew, stepDir.entries[..])
    {
      ZeroBestStepKeepsValue(ar, objective, x.entries[..], stepDir.entries[..], func, funcNew, stepSizeNew);
      if stepSizeNew == 0.0 {
        return Converged;
      }
      outcome := Move();
    }

    /**
      The directions of step (lines 258-264): grad_dir is grad negated and normalised,
      step_dir is H grad negated and normalised. The source passes func_new to
      negate_and_normalize as its scratch value. A zero norm is where the source's
      nan_check stops the process; here the result is false.
    */
    method Directions() returns (ok: bool)
      requires Valid()
      modifies gradDir.entries, stepDir.entries, this`funcNew
      ensures ok <==> NormValue(ar, grad.entries[..]) != 0.0
                      && NormValue(ar, MatVec(ar, hessInv.entries[..], grad.entries[..], NumVars)) != 0.0
      ensures ok ==> gradDir.entries[..] == Descent(ar, grad.entries[..])
      ensures ok ==> stepDir.entries[..] == Descent(ar, MatVec(ar, hessInv.entries[..], grad.entries[..], NumVars))
    {
      gradDir.Assign(grad);
      var gradLength := gradDir.Norm(ar);
      if gradLength == 0.0 {
        return false;
      }
      funcNew := gradDir.NegateAndNormalize(ar);
      stepDir.SetMatrixVectorMultiply(ar, hessInv, grad);
      var stepLength := stepDir.Norm(ar);
      if stepLength == 0.0 {
        return false;
      }
      funcNew := stepDir.NegateAndNormalize(ar);
      return true;
    }

    /**
      The two line searches of step and the choice between them (lines 266-284). Both
      start at x with value func and the current step size. When the gradient search
      ends strictly lower, its direction, value and step are taken and H is reset to
      the identity; otherwise the quasi-Newton search's are kept. Either way the chosen
      pair is consistent: step 0 with value func, or a lower value that the objective
      takes at the point the step leads to.
    */
    method Searches(fuel: nat)
      returns (ghost bfgsValue: real, ghost bfgsStep: real, ghost gradTrace: seq<Evaluation>,
               ghost bfgsTrace: seq<Evaluation>)
      requires Valid() && OnGrid()
      modifies stepDir.entries, hessInv.entries
      modifies this`stepType, this`funcGrad, this`funcNew, this`stepSizeGrad, this`stepSizeNew
      ensures SearchResult(ar, objective, x.entries[..], gradDir.entries[..], func, stepSize, fuel,
                           gradTrace, funcGrad, stepSizeGrad)
      ensures SearchResult(ar, objective, x.entries[..], old(stepDir.entries[..]), func, stepSize, fuel,
                           bfgsTrace, bfgsValue, bfgsStep)
      ensures stepType == GRAD || stepType == BFGS
      ensures stepType == GRAD <==> funcGrad < bfgsValue
      ensures stepType == GRAD ==>
        stepDir.entries[..] == gradDir.entries[..] && IsIdentity(hessInv.entries[..], NumVars)
        && funcNew == funcGrad && stepSizeNew == stepSizeGrad
      ensures stepType == BFGS ==>
        stepDir.entries[..] == old(stepDir.entries[..]) && hessInv.entries[..] == old(hessInv.entries[..])
        && funcNew == bfgsValue && stepSizeNew == bfgsStep
      ensures ConsistentBest(ar, objective, x.entries[..], stepDir.entries[..], func, funcNew, stepSizeNew)
    {
      funcGrad, stepSizeGrad, gradTrace := LineSearchAlong(gradDir, fuel);
      funcNew, stepSizeNew, bfgsTrace := LineSearchAlong(stepDir, fuel);
      bfgsValue, bfgsStep := funcNew, stepSizeNew;
      if funcGrad < funcNew {
        stepDir.Assign(gradDir);
        hessInv.SetIdentityMatrix();
        funcNew := funcGrad;
        stepSizeNew := stepSizeGrad;
        stepType := GRAD;
      } else {
        stepType := BFGS;
      }
    }

    /**
      One line searcher of step: it starts from x with value func along `dir` at the
      current step size, and its outputs are the best value and step it found; `trace`
      is the searcher's history of evaluations, which determines both.
    */
    method LineSearchAlong(dir: Vector, fuel: nat) returns (best: real, bestStep: real, ghost trace: seq<Evaluation>)
      requires Valid() && OnGrid() && dir.entries.Length == NumVars
      ensures SearchResult(ar, objective, x.entries[..], dir.entries[..], func, stepSize, fuel, trace, best, bestStep)
    {
      var temp := new Vector();
      var searcher := new QuadraticLineSearcher(ar, objective, x, func, dir);
      searcher.Search(temp, stepSize, fuel);
      trace := searcher.history;
      assert trace[0..] == trace;
      best, bestStep := searcher.bestObjectiveValue, searcher.bestStepSize;
    }

    /**
      The move of step (lines 294-308), once the chosen step is nonzero: x_new = x + t d,
      its norm, value and gradient, the gradient change, and the update of H. The value
      at x_new is the one the line search found, so it is below func. A zero curvature
      (y . d) t, on which the update would divide by zero, gives `Invalid`.
    */
    method Move() returns (outcome: StepOutcome)
      requires Valid() && OnGrid() && stepSizeNew != 0.0
      requires ConsistentBest(ar, objective, x.entries[..], stepDir.entries[..], func, funcNew, stepSizeNew)
      modifies xNew.entries, gradNew.entries, gradDelta.entries, hessInv.entries, kappa.entries
      modifies this`funcNew, this`xNewNorm, this`gradNewNorm
      ensures outcome == Stepped || outcome == Invalid
      ensures xNew.entries[..] == Axpy(ar, stepSizeNew, stepDir.entries[..], x.entries[..])
      ensures xNew.entries[..] != x.entries[..] && AllRepresentable(ar, xNew.entries[..])
      ensures Candidate() && funcNew < func
      ensures gradDelta.entries[..] == Difference(ar, gradNew.entries[..], grad.entries[..])
      ensures outcome == Stepped <==> Defined(ar, gradDelta.entries[..], stepSizeNew, stepDir.entries[..])
      ensures outcome == Stepped ==>
        IsUpdate(ar, old(hessInv.entries[..]), hessInv.entries[..], NumVars, gradDelta.entries[..],
                 stepSizeNew, stepDir.entries[..])
      ensures outcome == Invalid ==> hessInv.entries[..] == old(hessInv.entries[..])
    {
      xNew.SetAxpy(ar, stepSizeNew, stepDir, x);
      AxpyRepresentable(ar, stepSizeNew, stepDir.entries[..], x.entries[..]);
      xNewNorm := xNew.Norm(ar);
      funcNew := objective(xNew.entries[..]);
      ObjectiveGradient(partial, gradNew, xNew);
      gradNewNorm := gradNew.Norm(ar);
      gradDelta.SetSub(ar, gradNew, grad);
      if !Defined(ar, gradDelta.entries[..], stepSizeNew, stepDir.entries[..]) {
        return Invalid;
      }
      UpdateInverseHessian(ar, hessInv, NumVars, gradDelta, stepSizeNew, stepDir, kappa);
      outcome := Stepped;
    }

    /**
      shift: the candidate becomes current. x and x_new, grad and grad_new trade
      contents; the norms, the value and the step size are copied from the candidate's;
      the iteration count goes up by one, modulo 2^64.
    */
    method Shift()
      requires Valid()
      modifies x.entries, xNew.entries, grad.entries, gradNew.entries
      modifies this`xNorm, this`func, this`gradNorm, this`stepSize, this`iterCount
      ensures Valid()
      ensures x.entries[..] == old(xNew.entries[..]) && xNew.entries[..] == old(x.entries[..])
      ensures grad.entries[..] == old(gradNew.entries[..]) && gradNew.entries[..] == old(grad.entries[..])
      ensures xNorm == old(xNewNorm) && func == old(funcNew) && gradNorm == old(gradNewNorm)
      ensures stepSize == old(stepSizeNew)
      ensures iterCount == (old(iterCount) + 1) % Word
      ensures old(Candidate()) ==> Current()
    {
      x.Swap(xNew);
      xNorm := xNewNorm;
      func := funcNew;
      grad.Swap(gradNew);
      gradNorm := gradNewNorm;
      stepSize := stepSizeNew;
      iterCount := (iterCount + 1) % Word;
    }
  }

  /** The numbers a file or a random engine supplies, each rounded to the run's precision. */
  function Rounded(ar: Arith, v: seq<real>): (r: seq<real>)
    ensures |r| == |v| && forall i :: 0 <= i < |v| ==> r[i] == ar.rnd(v[i])
  {
    seq(|v|, i requires 0 <= i < |v| => ar.rnd(v[i]))
  }

  lemma RoundedOnGrid(ar: Arith, v: seq<real>)
    requires IsRounding(ar)
    ensures AllRepresentable(ar, Rounded(ar, v))
  {
    forall i | 0 <= i < |v| ensures Representable(ar, Rounded(ar, v)[i]) {
      RoundedIsRepresentable(ar, v[i]);
    }
  }

  /**
    objective_gradient, whose generated body is not part of this model: it fills `dst`
    with the partial derivatives at `point`.
  */
  method ObjectiveGradient(partial: (seq<real>, nat) -> real, dst: Vector, point: Vector)
    requires dst.entries.Length == NumVars && point.entries.Length == NumVars
    requires dst.entries != point.entries
    modifies dst.entries
    ensures dst.entries[..] == GradientAt(partial, point.entries[..])
  {
    var p := point.entries[..];
    forall i | 0 <= i < NumVars {
      dst.entries[i] := partial(p, i);
    }
    assert dst.entries[..] == GradientAt(partial, p);
    assert point.entries[..] == p;
  }
}
