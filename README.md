# rktk BFGS optimiser: a Dafny model

rktk searches for Runge-Kutta coefficients by minimising the residual of the order
conditions. It uses an arbitrary-precision BFGS method over MPFR numbers. This project
models the exact logic around that numerical core:

- **Checkpoint file names** (`FilenameHelpers`, `NonlinearOptimizers.CheckpointName`).
  A checkpoint name is 68 characters long: two 4-digit decimal scores, `RKTK`, a run
  identifier in five hexadecimal fields of 8, 4, 4, 4 and 12 digits, a 12-digit
  iteration count and `.txt`. The model covers the recogniser, the digit-range readers
  and the zero-padded writer. Its main property is the round trip: a name the writer
  builds is recognised, and reading it gives back the iteration count and the run
  identifier.
- **Vectors and matrices** (`Vectors`, `Matrices`, `LinalgSubroutines`). These are
  fixed-length arrays of NUM_VARS = 136 entries, and NUM_VARS x NUM_VARS matrices stored
  row-major at k = i*n + j. Every operation is an in-place loop, proved against a
  function of the operands' contents. The functions fix the order of accumulation used
  by `norm`, `dot` and the matrix-vector product: one multiplication, then fused
  multiply-adds in increasing index order.
- **The rank-two inverse-Hessian update** (`BfgsSubroutines`). The update computes
  kappa = H y, then the scalars theta, lambda, sigma, beta and alpha, then kappa'.
  The double loop adds alpha (kappa'_i d_j + d_i kappa'_j) to every entry. In exact
  arithmetic the update keeps a symmetric matrix symmetric and satisfies the secant
  condition H' y = t d.
- **The quadratic line search** (`LineSearch`). It has a doubling branch of at most
  four doublings and a halving branch, and each ends with a parabolic interpolation
  step. It keeps the best value and step seen so far. A ghost history of every
  evaluation lets `Search` state which steps were tried and why the search stopped.
- **The optimiser** (`NonlinearOptimizers.BFGSOptimizer`). This covers both
  initialisers, `step` and `shift`. `step` searches along the gradient and along the
  quasi-Newton direction, keeps the better one, stops on a zero step, and otherwise
  moves to the candidate and updates H. `shift` commits the candidate and increments
  the iteration count.

Scalars are Dafny `real`. An MPFR operation is its exact result passed through a
rounding function `rnd`, and the square root is an abstract function `root`. Both are
fields of `Scalars.Arith`. MPFR rounds correctly, so this describes every operation on
finite values at the run's precision. Most lemmas hold for any rounding function. The
ones whose names start with `Exact` assume no rounding (`Scalars.Exact`) and are the
textbook statements. The objective function and its partial derivatives are
function-valued parameters. Random draws, the numbers in an input file and the file
name are parameters of the initialisers.

The code differs from the textbook quadratic search and BFGS loop as follows:

- The line search does not reject a non-positive interpolated step. It evaluates
  whatever step the parabola gives.
  `LineSearch.ExactDoublingStepIsVertex` and `LineSearch.ExactHalvingStepIsVertex`
  show that in exact arithmetic the step is positive anyway.
- `step` runs both line searches once each and has no retry loop.
- The optimiser uses line searcher and vector classes from another namespace. Their
  signatures differ from the `rktk::` classes in QuadraticLineSearcher.hpp and MPFRVector.hpp. The model gives them the contract
  of `rktk::QuadraticLineSearcher`, with the objective as an extra parameter, which is
  how `step` calls it.
- The call of `update_inverse_hessian` in `step` leaves out the `n` argument. The model
  passes n = NUM_VARS, the only value for which the routine is the BFGS update.

## Model

| member | source | states |
|---|---|---|
| Matrices.Matrix.SetIdentityMatrix | MPFRMatrix.hpp:47-53 | afterwards entry i*N + j is 1 when i = j and 0 otherwise, for every i, j < N; the loop's running index stays equal to i*N + j |
| Matrices.IdentityUnique | MPFRMatrix.hpp:47-53 | two identity matrices are equal, so the result does not depend on the earlier contents, and setting the identity twice is the same as once |
| Matrices.IdentityIsSymmetric | MPFRMatrix.hpp:47-53 | the identity matrix is symmetric: entry i*N + j equals entry j*N + i |
| Matrices.RowMajorInjective | MPFRMatrix.hpp:48-51 | distinct (i, j) have distinct flat indices i*n + j, so no entry is written twice |
| Matrices.RowMajorCover | MPFRMatrix.hpp:48-51 | every flat index below n*n is the index of an entry (k / n, k % n), so every entry is written |
| Matrices.EntrywiseEqual | MPFRMatrix.hpp:48-51 | two row-major matrices that agree at every (i, j) are equal as flat arrays |
| Vectors.Vector.Copy | MPFRVector.hpp:32-37 | the copy constructor gives fresh storage holding the source's entries |
| Vectors.Vector.Assign | MPFRVector.hpp:39-44 | after assignment the target holds the source's old entries and the source is unchanged |
| Vectors.Vector.Swap | MPFRVector.hpp:52-55 | each vector ends with the other's old entries |
| Vectors.SwapTwice | MPFRVector.hpp:52-55 | swapping twice restores both vectors |
| Vectors.Vector.Equals | MPFRVector.hpp:69-74 | the result is true exactly when all N entries are equal |
| Vectors.Vector.SetZero | MPFRVector.hpp:76-78 | every entry becomes 0 |
| Vectors.Vector.Scale | MPFRVector.hpp:80-82 | each entry e becomes rnd(coeff * e) |
| Vectors.Vector.Norm | MPFRVector.hpp:84-90 | the result is the square root of rnd(e0^2), then fused e_i * e_i + acc for i = 1 .. N-1 in increasing order |
| Vectors.SquaresAreSelfDot | MPFRVector.hpp:84-90 | under any rounding, the norm's running sum equals the running dot product of the vector with itself |
| Vectors.Vector.NegateAndNormalize | MPFRVector.hpp:92-96 | the scratch value is rnd(-1 / norm) and every entry is scaled by it |
| Vectors.Vector.SetAdd | MPFRVector.hpp:98-102 | entry i becomes rnd(x_i + y_i), from the operands' old entries, even when the target aliases one of them |
| Vectors.Vector.SetSub | MPFRVector.hpp:104-108 | entry i becomes rnd(x_i - y_i), from the operands' old entries |
| Vectors.Vector.SetAxpy | MPFRVector.hpp:110-115 | entry i becomes the fused rnd(a x_i + y_i), from the operands' old entries |
| Vectors.Vector.SetAxmy | MPFRVector.hpp:117-122 | entry i becomes the fused rnd(a x_i - y_i), from the operands' old entries |
| Vectors.UnitAxpyIsSum | MPFRVector.hpp:98-122 | with a = 1, axpy is set_add and axmy is set_sub, under any rounding |
| Vectors.AxpyRepresentable | MPFRVector.hpp:110-115 | every entry axpy writes is a value at the run's precision |
| Vectors.ZeroStepKeepsPoint | MPFRVector.hpp:110-115 | axpy with a = 0 leaves a vector of representable values unchanged |
| Vectors.Vector.SetMatrixVectorMultiply | MPFRVector.hpp:124-134 | entry i becomes row i times v: rnd(M[i*N] v0), then fused M[i*N + j] v_j + acc for j = 1 .. N-1; the target must not alias v |
| Vectors.ExactIdentityTimes | MPFRVector.hpp:124-134 | in exact arithmetic the identity matrix times v is v |
| Vectors.ExactDot | bfgs_subroutines.cpp:6-13 | in exact arithmetic the fused accumulation of dot is the inner product |
| LinalgSubroutines.ElementwiseEqual | linalg_subroutines.cpp:6-11 | the result is true exactly when v and w agree on their first n entries, and true for n = 0 |
| LinalgSubroutines.IdentityMatrix | linalg_subroutines.cpp:13-20 | the first n*n entries form the n x n identity and no entry at or beyond n*n changes |
| LinalgSubroutines.L2Norm | linalg_subroutines.cpp:22-26 | with n >= 1, the result is the square root of the same running sum of squares as `norm` |
| LinalgSubroutines.MatrixVectorMultiply | linalg_subroutines.cpp:28-38 | dst[i] for i < n is row i of the n x n matrix times vec, accumulated as in the vector method; dst[n..] is unchanged |
| LinalgSubroutines.AgreesWithVectorMethod | linalg_subroutines.cpp:28-38 | with n = N, the free routine and `set_matrix_vector_multiply` compute the same vector |
| BfgsSubroutines.DotProduct | bfgs_subroutines.cpp:6-13 | the result is rnd(v0 w0), then fused v_i w_i + acc for i = 1 .. N-1 in increasing order |
| BfgsSubroutines.UpdateInverseHessian | bfgs_subroutines.cpp:15-59 | provided lambda and lambda^2 are nonzero, the first n x n block of H receives the rank-two update built from the old H; entries from n*n on are unchanged; the workspace ends as kappa' |
| BfgsSubroutines.KappaAndScalars | bfgs_subroutines.cpp:31-44 | kappa = H y is computed in full before H changes; lambda and beta follow in the source's order of operations |
| BfgsSubroutines.ShiftKappa | bfgs_subroutines.cpp:45-48 | kappa_i becomes -rnd(beta d_i - kappa_i) for i < n, and the other entries are unchanged |
| BfgsSubroutines.AddRankTwoCorrection | bfgs_subroutines.cpp:51-58 | each entry i*n + j with i, j < n becomes H_k + alpha (kappa'_i d_j + d_i kappa'_j) as fused operations; nothing from n*n on changes |
| BfgsSubroutines.ExactCoefficients | bfgs_subroutines.cpp:31-50 | in exact arithmetic lambda = (y . d) t, theta = y . kappa, sigma = (lambda + theta) / lambda^2, beta = t lambda sigma / 2 and alpha = -t / lambda |
| BfgsSubroutines.ExactShiftedKappa | bfgs_subroutines.cpp:45-48 | in exact arithmetic kappa'_i = kappa_i - beta d_i |
| BfgsSubroutines.ExactUpdatedEntry | bfgs_subroutines.cpp:54-56 | in exact arithmetic entry (i, j) becomes h_ij + alpha d_i kappa'_j + alpha kappa'_i d_j |
| BfgsSubroutines.ExactUpdatedEntrySymmetric | bfgs_subroutines.cpp:54-56 | in exact arithmetic the correction is symmetric in i and j |
| BfgsSubroutines.ExactUpdateKeepsSymmetry | bfgs_subroutines.cpp:51-58 | in exact arithmetic the update keeps a symmetric matrix symmetric |
| BfgsSubroutines.FullUpdateIsRankTwo | bfgs_subroutines.cpp:51-58 | with n = N the update changes every entry of H by the rank-two correction |
| BfgsSubroutines.ExactSecantCondition | bfgs_subroutines.cpp:31-58 | in exact arithmetic, with n = N, the updated matrix maps y to t d |
| LineSearch.QuadraticLineSearcher.constructor | QuadraticLineSearcher.hpp:30-48 | the best value starts at f0 and the best step at 0 |
| LineSearch.QuadraticLineSearcher.EvaluateObjectiveFunction | QuadraticLineSearcher.hpp:66-83 | xt = x0 + t dx; an unmoved point reports f0, "unchanged" and leaves the best pair alone; otherwise the objective at xt is reported, and only a strictly smaller value replaces the best pair with (value, t) |
| LineSearch.QuadraticLineSearcher.Search | QuadraticLineSearcher.hpp:87-144 | the best value never increases and stays the minimum of f0 and every value reported at a moved point; the new evaluations form a doubling trace when the first improves on f0 and a halving trace otherwise; x0, dx and f0 are never written |
| LineSearch.QuadraticLineSearcher.DoublingPhase | QuadraticLineSearcher.hpp:91-117 | at most six evaluations; each accepted doubling lowers the value; four accepted doublings end the search; otherwise the last try is the interpolated step |
| LineSearch.QuadraticLineSearcher.DoublingInterpolation | QuadraticLineSearcher.hpp:107-117 | the last try is (s / 2) (4 f1 - f2 - 3 f0) / (2 f1 - f2 - f0), each operation rounded |
| LineSearch.QuadraticLineSearcher.HalvingPhase | QuadraticLineSearcher.hpp:119-143 | the step halves while the point moves and the value stays at or above f0; the search ends when the point stops moving, interpolates once the value drops below f0, or stops after `fuel` rejected halvings |
| LineSearch.QuadraticLineSearcher.HalvingInterpolation | QuadraticLineSearcher.hpp:132-142 | the last try is (s / 4) (f1 - 4 f2 + 3 f0) / (f1 - 2 f2 + f0), each operation rounded |
| LineSearch.ExactDoublingStepIsVertex | QuadraticLineSearcher.hpp:107-116 | in exact arithmetic the doubling interpolation step is positive and is the vertex of the convex parabola through (0, f0), (s, f1), (2s, f2) |
| LineSearch.ExactHalvingStepIsVertex | QuadraticLineSearcher.hpp:132-141 | in exact arithmetic the halving interpolation step is positive and is the vertex of the convex parabola through (0, f0), (s/2, f2), (s, f1) |
| LineSearch.LowestIsMinimum | QuadraticLineSearcher.hpp:79-82 | the best value is at most f0 and at most every value reported at a moved point, and it is one of them |
| LineSearch.ZeroBestStepKeepsValue | QuadraticLineSearcher.hpp:46-47 | the best value never exceeds f0, and a best step of zero means the best value is f0 |
| FilenameHelpers.DigitValue | FilenameHelpers.hpp:10-18 | a hexadecimal digit has a value below 16, either case; it is a decimal digit exactly when its value is below 10 |
| FilenameHelpers.CaseInsensitive | FilenameHelpers.hpp:14-18 | the letters a-f and A-F have the same values, 10 to 15 |
| FilenameHelpers.DecRangeIsHexRange | FilenameHelpers.hpp:10-18 | every decimal digit is a hexadecimal digit, so a decimal range is a hexadecimal range |
| FilenameHelpers.IsDecSubstr | FilenameHelpers.hpp:20-27 | the result is true exactly when every character in [begin, end) is a decimal digit, and true on an empty range |
| FilenameHelpers.IsHexSubstr | FilenameHelpers.hpp:29-36 | the result is true exactly when every character in [begin, end) is a hexadecimal digit, and true on an empty range |
| FilenameHelpers.CheckRktkFilename | FilenameHelpers.hpp:38-64 | the result is true exactly when the name has length 68 and the layout 4 dec, '-', 4 dec, "-RKTK-", 8/4/4/4/12 hex separated by '-', '-', 12 dec, ".txt"; every index read is in bounds |
| FilenameHelpers.DecSubstrToInt | FilenameHelpers.hpp:66-73 | on a range of decimal digits the result is its base-10 value, below 10^(end - begin) |
| FilenameHelpers.HexSubstrToInt | FilenameHelpers.hpp:75-82 | on a range of hexadecimal digits the result is its base-16 value, either case, below 16^(end - begin) |
| FilenameHelpers.ValueBound | FilenameHelpers.hpp:66-82 | w digits in a base are worth less than base^w |
| FilenameHelpers.ValueLeadingZeros | FilenameHelpers.hpp:66-82 | leading zeros do not change the value read |
| FilenameHelpers.ValueOfDigits | FilenameHelpers.hpp:66-82 | reading the shortest rendering of v gives back v |
| FilenameHelpers.PaddedRoundTrip | FilenameHelpers.hpp:66-82 | for v < base^w, the w-character zero-padded rendering of v consists of digits and reads back as v |
| FilenameHelpers.DigitsLength | nonlinear_optimizers.hpp:217-227 | the shortest rendering of v has at most w digits exactly when v < base^w |
| FilenameHelpers.PaddedOverflow | nonlinear_optimizers.hpp:217-227 | a value of base^w or more prints wider than its field of w |
| FilenameHelpers.DigitChar | nonlinear_optimizers.hpp:220 | the digit printed for d < 16 is an upper-case hexadecimal digit of value d, and a decimal digit when d < 10 |
| NonlinearOptimizers.ClampScore | nonlinear_optimizers.hpp:210-215 | a score is clamped into [0, 9999]: below 0 gives 0, above 9999 gives 9999, otherwise it is kept |
| NonlinearOptimizers.CheckpointName | nonlinear_optimizers.hpp:216-227 | the name write_to_file builds: clamped scores in 4 decimal digits, the five segments in 8/4/4/4/12 upper-case hex digits and the count in 12 decimal digits, zero-padded, joined by '-' around "RKTK" and ending in ".txt"; it is at least 68 characters long (`CheckpointNameRoundTrip` and `CheckpointNameOverflow` state when it is recognised) |
| NonlinearOptimizers.LayoutRecognised | FilenameHelpers.hpp:38-64 | fields of widths 4, 4, 8, 4, 4, 4, 12 and 12 digits, joined as the writer joins them, form a recognised name with each field at its offset |
| NonlinearOptimizers.CheckpointNameRoundTrip | nonlinear_optimizers.hpp:216-227 | when the segments fit 8/4/4/4/12 hex digits and the count is below 10^12, for any scores, the name has length 68, is recognised, and positions 52-64, 15-23, 24-28, 29-33, 34-38 and 39-51 read back the count and the five segments |
| NonlinearOptimizers.CheckpointNameOverflow | nonlinear_optimizers.hpp:227 | an iteration count of 10^12 or more gives a name the recogniser rejects |
| NonlinearOptimizers.Masked | nonlinear_optimizers.hpp:118-122 | masking a draw with low one-bits gives at most the mask, and leaves a draw that already fits unchanged |
| NonlinearOptimizers.ExactInitialStepSize | nonlinear_optimizers.hpp:247-251 | in exact arithmetic the initial step size is 2^-(prec / 2), in (0, 1] |
| NonlinearOptimizers.RoundedOnGrid | nonlinear_optimizers.hpp:109 | numbers read at the run's precision are representable |
| NonlinearOptimizers.ObjectiveGradient | nonlinear_optimizers.hpp:113 | the gradient vector holds the N partial derivatives at the point |
| NonlinearOptimizers.BFGSOptimizer.constructor | nonlinear_optimizers.hpp:56-80 | the step type is NONE, and the iteration count and the five segments start at 2^64 - 1 |
| NonlinearOptimizers.BFGSOptimizer.InitializeRandom | nonlinear_optimizers.hpp:100-124 | x is the rounded samples; norm, value and gradient belong to x; the step size is 0; H is the identity; the count is 0; the segments are the draws masked to 32, 16, 16, 16 and 48 bits |
| NonlinearOptimizers.BFGSOptimizer.InitializeFromFile | nonlinear_optimizers.hpp:126-170 | fewer than N numbers is the read error; otherwise x is the rounded numbers with its value, gradient and norms, the step size is 0, H is the identity, and the count and segments are read from a recognised name or are 0 and masked draws |
| NonlinearOptimizers.BFGSOptimizer.ReadPoint | nonlinear_optimizers.hpp:134-140 | x_i is the i-th number rounded, and the read fails exactly when there are fewer than N numbers |
| NonlinearOptimizers.BFGSOptimizer.EvaluateStart | nonlinear_optimizers.hpp:143-148 | the norm, value and gradient belong to x, the step size is 0 and H is the identity |
| NonlinearOptimizers.BFGSOptimizer.IdentifyRun | nonlinear_optimizers.hpp:149-169 | a recognised name gives the count from positions 52-64 and the segments from the five hex fields; any other name gives 0 and the masked draws |
| NonlinearOptimizers.BFGSOptimizer.NewRun | nonlinear_optimizers.hpp:117-122 | the count is 0 and the masked draws fit the 8/4/4/4/12 hex fields of the checkpoint name |
| NonlinearOptimizers.BFGSOptimizer.SetStepSize | nonlinear_optimizers.hpp:247-251 | the step size is 1 divided by 2^(prec / 2) |
| NonlinearOptimizers.BFGSOptimizer.ObjectiveFunctionHasDecreased | nonlinear_optimizers.hpp:176-178 | true exactly when func_new < func, the source's own one-line comparison; the property worth having is in `Step`: it holds exactly when a step was taken |
| NonlinearOptimizers.BFGSOptimizer.Step | nonlinear_optimizers.hpp:253-309 | once both norms are nonzero, the two searches run from x with value func and the current step size along -grad/|grad| and -(H grad)/|H grad|, and each reports the lowest value of its own evaluations with its step (`SearchResult`); GRAD exactly when the gradient search's value is strictly below the quasi-Newton search's, and then step_dir = grad_dir and H is the identity, otherwise the quasi-Newton step is kept; a zero best step converges with func_new = func and leaves x_new, grad_new, grad_delta, their norms and H alone; otherwise x_new = x + t d with a lower value, and H gets the BFGS update; the value has decreased exactly when a step was taken; the result is `Invalid` exactly when |grad| = 0, |H grad| = 0 or, after a nonzero step, the update's denominators vanish (where the source's nan_check ends the process); x, grad, func, the norms, the step size and the count are never written |
| NonlinearOptimizers.BFGSOptimizer.Directions | nonlinear_optimizers.hpp:258-264 | grad_dir = -grad / norm(grad) and step_dir = -(H grad) / norm(H grad); a zero norm is the invalid case |
| NonlinearOptimizers.BFGSOptimizer.Searches | nonlinear_optimizers.hpp:266-284 | both searches' results are those of a full search along grad_dir and along the old step_dir (`SearchResult`); the gradient result wins exactly when it is strictly below the quasi-Newton value, and then H is reset; otherwise the quasi-Newton value and step are kept; either way the chosen (value, step) is (func, 0) or a lower value taken at the point the step reaches |
| NonlinearOptimizers.BFGSOptimizer.LineSearchAlong | nonlinear_optimizers.hpp:267-274 | a fresh searcher from x with value func and the current step size returns the best pair of its search: its evaluations follow the doubling or halving branches, each is the objective at the point tried, and the pair is the lowest value among them with its step |
| NonlinearOptimizers.BFGSOptimizer.Descend | nonlinear_optimizers.hpp:266-309 | the two searches, the choice of direction, the early return on a zero step and the move, as `Step` states them once the directions are set; Stepped exactly when the step is nonzero and the update is defined, and on `Invalid` the candidate is x + t d with its value and gradient while H is the matrix the update would start from |
| NonlinearOptimizers.BFGSOptimizer.Advance | nonlinear_optimizers.hpp:286-309 | a zero step returns Converged, leaving the candidate, grad_delta, the new norms and H alone; any other step moves to x + t d and decreases the value; Stepped exactly when the step is nonzero and the update is defined, and `Invalid` leaves H unchanged |
| NonlinearOptimizers.BFGSOptimizer.Move | nonlinear_optimizers.hpp:294-308 | x_new = x + t d differs from x and has a lower value; its gradient and norms belong to it; grad_delta = grad_new - grad; H gets the update unless lambda is zero |
| NonlinearOptimizers.BFGSOptimizer.Shift | nonlinear_optimizers.hpp:311-319 | x and x_new, grad and grad_new trade contents; the norms, value and step size come from the candidate; the count goes up by one modulo 2^64; a candidate that belonged to x_new is now current |

## Left out

- MPFR rounding modes, precision and NaN/infinity are not modelled. A scalar is a `real`, and rounding is the abstract `rnd`. Reals have no NaN, so the caveat that `operator==` fails on NaN entries does not arise.
- Nothing is claimed about convergence, positive-definiteness of H, error bounds or the quality of the interpolated step. Such claims depend on floating-point behaviour.
- `nan_check` and `std::exit` are not modelled: the process ends there. `Step` instead returns `Invalid` where a division by zero would produce NaN, and `InitializeFromFile` returns `false` on the read error.
- Opening, reading, writing and closing files and all printing are not modelled. Neither are the log10 / `long double` computations of the scores and the print precision. `CheckpointName` takes the scores as integers.
- The random engine and its seeding are not modelled. The uniform samples and the five 64-bit draws are parameters.
- The objective function and its gradient are not part of this model. They are function-valued parameters, because their bodies are generated per method and are outside this model.
- rksearch_main.cpp is not part of this model: argument parsing, the clock-driven print cadence and the driver loop.
- The declarations in bfgs_subroutines.hpp and the `quadratic_line_search` they declare are not part of this model.
- The lazily allocated static workspace of `update_inverse_hessian` is a caller-owned vector (`kappa`), and MPFR allocation and clearing are not modelled.
- LineSearch.QuadraticLineSearcher.Search: the halving loop has no bound in the source. Here it stops after `fuel` rejected halvings, which is a trace of its own kind.
- LineSearch.QuadraticLineSearcher.HalvingPhase: the loop that carries that bound; after `fuel` rejected halvings it returns without trying a smaller step, where the source would go on halving.
- LineSearch.QuadraticLineSearcher.DoublingInterpolation: a zero denominator, where MPFR would give an infinite or NaN step, ends the search without the last evaluation.
- LineSearch.QuadraticLineSearcher.HalvingInterpolation: a zero denominator, where MPFR would give an infinite or NaN step, ends the search without the last evaluation.
- BfgsSubroutines.UpdateInverseHessian: the scalars divide by lambda and lambda^2, so the contract requires both to be nonzero. The source evaluates the divisions anyway and produces infinities.
- Vectors.Vector.NegateAndNormalize: requires a nonzero norm; the source divides by zero and nan_check stops the process.
- NonlinearOptimizers.BFGSOptimizer.Step: the two line searches run on values held in Dafny fields. The swap of `mpfr_t` handles inside the searcher is modelled as copying.
- The widths of `std::size_t` and `std::uint64_t` appear only where values wrap: the initial 2^64 - 1 and the count modulo 2^64 in `Shift`.
