# Trace fitter: the discrete core, in Dafny

`trace_fitter.py` fits an analytic TES or FET pulse shape to one detector trace.
Around the numeric least-squares fit it makes a number of discrete choices:

- where the peak and the e-folding points of the trace are;
- which `[start, end)` window of samples the fit sees;
- which bounds the optimizer gets from the initial guess.

This project models those choices and proves what they guarantee. Each search
is a function that returns `None` where the source would index an empty
`np.nonzero(...)` result. The sensor kind is passed in explicitly instead of
being read from the module's `sensorType` global. The solver is a function
parameter, and the model holds only what it is handed.

Modules, leaf first:

- `Wrappers` (wrappers.dfy): `Option` and `Result`.
- `Numerics` (numerics.dfy): `E` for `np.e`, and the extended reals
  `NegInf | PosInf | Finite(v)`. These are used for bounds and for rates
  computed as `2./d`, which numpy turns into `+inf` when `d == 0.0`.
- `TraceTypes` (trace_types.dfy): the sensor kind `TES | FET | Other`, the
  error taxonomy, the window, and Python slicing.
- `FeatureLocator` (feature_locator.dfy): `argmax`, `argmin`, `max`, `min`,
  and the first or last index of a threshold mask.
- `FittingWindow` (fitting_window.dfy): `fittingRange`.
- `TesGuess` (tes_guess.dfy) and `FetGuess` (fet_guess.dfy): the index
  searches and the recovery clamp of `guessTES` and `guessFET`.
- `BoundsPolicy` (bounds_policy.dfy): `guessRange`. It is an array-and-loop
  method proved equal to the reference function `BoundsFor`.
- `TraceFitter` (trace_fitter.dfy): the step order of `trace_fitting`.

Points where the code behaves in a way worth stating:

- Three searches of `guessFET` (the decay search and both recovery searches)
  and the falling-side searches of `guessTES` run over a suffix
  (`trace[ipeak:]` or `trace[imin:]`), so they return offsets. The trigger
  search of `guessFET` runs over all of `bins`. The code then indexes `bins`
  with the offsets directly (`bins[flo]`, `bins[dhi] - bins[0]`,
  `bins[rhi] - bins[rlo]`). This equals the time separation only for uniform
  binning. The model does the same.
- `guessFET`'s `offsetGuess = ipeak - istart` is a difference of sample
  indices, not a time.
- The TES window `[ilo, ihi)` starts at the last sample at or below the cut,
  so the fitted slice contains that one sample (`TesFitData`). The search for
  `ihi` starts at the peak itself, so the window reaches past the peak only
  when `cut*peak < peak` (`TesWindowContainsPeak`).
- A flat trace makes the TES window and the TES guess fail with
  `FeatureNotFound`. The FET window never fails on a non-empty trace. The FET
  guess on a flat trace succeeds at a non-negative baseline when some bin lies
  at or after `t = 0`. At a negative baseline its decay search fails
  (`FlatTraceFetGuess`). With no bin at or after `t = 0` the trigger search
  fails.
- `guessRange` as written raises NameError whenever it is given a guess
  function (see "## Findings"). `GuessRange`, and `SetUpFit` through it, model
  the intended behaviour, not the crash: the guess vector computed on
  trace_fitter.py:258 is the argument, and `None` stands for "no guess
  function".
- The source does not check for bounds with `lower >= upper` before calling
  the solver. `Degenerate` and `DegenerateIffNegativeGuess` describe when this
  happens.

## Model

| member | source | states |
|---|---|---|
| `FeatureLocator.PeakIndex` | trace_fitter.py:223-224 | the index is a maximum of the trace and every earlier sample is strictly smaller (the first occurrence, as `list.index(max(...))` and `argmax` pick it) |
| `FeatureLocator.TroughIndex` | trace_fitter.py:177-178 | the index is a minimum of the trace and every earlier sample is strictly larger (`argmin`) |
| `FeatureLocator.Max` | trace_fitter.py:183 | the value occurs in the sequence and no sample exceeds it |
| `FeatureLocator.Min` | trace_fitter.py:177 | the value occurs in the sequence and no sample is below it |
| `FeatureLocator.FirstIndexWhere` | trace_fitter.py:143 | None exactly when no sample passes the threshold; otherwise the index passes it and no earlier index does (`np.nonzero(mask)[0][0]`) |
| `FeatureLocator.LastIndexWhere` | trace_fitter.py:138 | None exactly when no sample passes the threshold; otherwise the index passes it and no later index does (`np.nonzero(mask)[0][-1]`) |
| `FeatureLocator.PeakIsUnique` | trace_fitter.py:223-224 | two indices that both satisfy the first-maximum specification are equal |
| `FeatureLocator.FirstWeakerNoLater` | trace_fitter.py:143-144 | a forward search with a weaker threshold succeeds whenever the stricter one does, and stops no later |
| `FeatureLocator.LastWeakerNoEarlier` | trace_fitter.py:138-139 | a backward search with a weaker threshold succeeds whenever the stricter one does, and stops no earlier |
| `TraceTypes.Slice` | trace_fitter.py:263 | `s[lo:hi]` clips both ends to the length: its length is `min(hi,len)-lo` or 0, and element k is `s[lo+k]` |
| `Numerics.Scale` | trace_fitter.py:187 | `0.1*decayGuess` is the same infinity for an infinite rate and `c*x` for a finite one |
| `Numerics.TwoOver` | trace_fitter.py:174 | `2./d` is `+inf` exactly when `d == 0`, and otherwise the finite value `2/d`, positive for `d > 0` and negative for `d < 0` |
| `Numerics.EFacts` | trace_fitter.py:139 | `0.2*e > 0.1`, `0.4/e < 0.8` and `1/(2e) < 1` |
| `FittingWindow.CutLevelBelowPeak` | trace_fitter.py:232-233 | for a positive peak and `0 <= cut < 1`, `cut*peak < peak` |
| `FittingWindow.TesWindow` | trace_fitter.py:232-233 | on success `ilo < ipeak` with `trace[ilo] <= level`, `ipeak <= ihi < len` with `trace[ihi] <= level`, and every sample strictly between ilo and ihi other than those two is above the level; fails at the start exactly when no sample before the peak is at or below the level, and at the end exactly when the start exists but no sample from the peak on is |
| `FittingWindow.FittingRange` | trace_fitter.py:219-240 | an empty trace fails for every sensor; TES gives the window search around the first peak at `cut*peak`; FET gives `[argmax+1, argmax+1+2000)` unclipped; any other sensor gives `[0, len)` |
| `FittingWindow.TesWindowContainsPeak` | trace_fitter.py:232-233 | a TES window starts before the peak and reaches past it exactly when `cut*peak < peak`; so for a positive peak and `0 <= cut < 1`, `ilo < ipeak < ihi` |
| `FittingWindow.FlatTraceHasNoTesWindow` | trace_fitter.py:223-232 | a flat trace has its peak at index 0, so the TES window fails at the start search |
| `TesGuess.LevelsOrdered` | trace_fitter.py:138-144 | for a positive peak `0.1*peak < 0.2*e*peak` and `0.4*peak/e < 0.8*peak < peak` |
| `TesGuess.GuessTES` | trace_fitter.py:131-145 | on success: the first peak; rlo and rhi are the last indices before it at or below `0.1*peak` and `0.2*e*peak`; flo and fhi are the first offsets from it at or below `0.8*peak` and `0.4*peak/e`; rise is `bins[rhi]-bins[rlo]` and fall is `(bins[fhi]-bins[flo])/2`; the error names the first search in source order that matched nothing, each stage's condition stated both ways; `EmptyTrace` exactly for the empty trace; no other error, so the function succeeds when every search finds a sample |
| `TesGuess.TesSearchOrder` | trace_fitter.py:138-144 | for a positive peak `rlo <= rhi < ipeak` and `0 < flo <= fhi` |
| `TesGuess.TesGuessNonNegative` | trace_fitter.py:140-145 | with strictly increasing bins and a positive peak, the rise and fall guesses are non-negative |
| `TesGuess.TesRiseHighNeverFails` | trace_fitter.py:138-139 | for a positive peak the 20%*e search is never the one that fails |
| `TesGuess.FlatTraceHasNoTesGuess` | trace_fitter.py:133-138 | a flat trace fails at the first rising-side search |
| `FetGuess.DecayLevelBelowPeak` | trace_fitter.py:173 | a non-negative peak is at or above `peak/(2e)` |
| `FetGuess.RecoveryLevelsOrdered` | trace_fitter.py:184-185 | for `tmin < 0`, `tmin < 0.8*tmin < 0.4*tmin/e` |
| `FetGuess.ClampRecovery` | trace_fitter.py:187-189 | the result is 0 or the raw rate; a rate that survives is not below a tenth of the decay rate; it changes only when the raw rate was below that tenth |
| `FetGuess.ClampRecoveryIdempotent` | trace_fitter.py:187-189 | clamping twice gives the same rate as clamping once |
| `FetGuess.ClampRecoveryExample` | trace_fitter.py:187-189 | a decay rate of 1 and a raw recovery rate of 0.05 give a recovery rate of 0 |
| `FetGuess.DecayFeatures` | trace_fitter.py:173-174 | None exactly when nothing from the peak on reaches `peak/(2e)`; otherwise dhi is the last such offset and the decay rate is `2/(bins[dhi]-bins[0])` |
| `FetGuess.RecoveryFeatures` | trace_fitter.py:182-189 | on success: tlast is the largest sample from the minimum on; rlo and rhi are the first offsets at or above `0.8*tmin` and `min(0.4*tmin/e, tlast)`; the raw rate is `2/(bins[rhi]-bins[rlo])` and the result is its clamp; fails at the 80% search exactly when nothing reaches `0.8*tmin` |
| `FetGuess.RecoveryGuess` | trace_fitter.py:177-189 | the minimum is the first smallest sample; the undershoot branch is taken exactly when it is negative; otherwise the recovery rate is 0 |
| `FetGuess.GuessFET` | trace_fitter.py:161-189 | on success: the first peak; istart is one past the first bin with `t >= 0`; offset is `ipeak - istart`; the decay and recovery facts above; fails at the trigger search exactly when no bin is at or after `t = 0`; `EmptyTrace` exactly for the empty trace; every error names the empty trace or one of its four searches |
| `FetGuess.GuessFETFailures` | trace_fitter.py:173-185 | the decay search fails exactly when nothing from the peak on reaches `peak/(2e)`, and the 80% search fails exactly when the trace dips below zero and never climbs back to `0.8*tmin`, each given that the earlier searches succeeded |
| `FetGuess.GuessFETSucceeds` | trace_fitter.py:161-189 | `guessFET` succeeds exactly when a bin lies at or after `t = 0`, something from the peak on reaches `peak/(2e)`, and, if the trace dips below zero, something from the minimum on climbs back to `0.8*tmin` |
| `FetGuess.FlatTraceFetGuess` | trace_fitter.py:169-185 | on a flat trace with a bin at or after `t = 0`, `guessFET` succeeds at a non-negative baseline and fails at the decay search at a negative one |
| `FetGuess.FetDecayTailFound` | trace_fitter.py:173 | a non-negative peak never fails the decay search |
| `FetGuess.RecoveryHighFound` | trace_fitter.py:183-185 | the second recovery search always finds the largest sample of the tail |
| `FetGuess.FetRecoveryHighNeverFails` | trace_fitter.py:183-185 | `guessFET` never fails at the second recovery search |
| `FetGuess.FetRecoverySearchOrder` | trace_fitter.py:184-185 | in the undershoot branch `0 < rlo <= rhi` |
| `FetGuess.FetRecoveryRate` | trace_fitter.py:181-189 | the recovery rate is 0 unless `trace.min() < 0`; a nonzero rate is at least a tenth of the decay rate; with strictly increasing bins it is non-negative |
| `BoundsPolicy.BoundsFor` | trace_fitter.py:204-214 | no guess gives the scalar unconstrained pair; a guess vector gives lower and upper sequences of its length, `(0.1*g, 5*g)` per entry and `(-inf, +inf)` for `g == 0` |
| `BoundsPolicy.GuessRange` | trace_fitter.py:200-216 | the arrays built and overwritten in the loop equal `BoundsFor` of the guess |
| `BoundsPolicy.GuessRangeAsWritten` | trace_fitter.py:200-212 | as written, the call succeeds exactly without a guess function, then with the scalar pair; with one it raises NameError for `guess` |
| `BoundsPolicy.GuessRangeAsWrittenFails` | trace_fitter.py:204-212 | with a guess function the as-written call fails, so per-parameter bounds never reach the solver, whereas the intended policy bounds the guess `(1)` by `(0.1, 5)` |
| `BoundsPolicy.BoundPair` | trace_fitter.py:207-214 | for `g > 0`, `0.1*g <= g <= 5*g` with the lower bound strictly below the upper; for `g == 0` both bounds are infinite; for `g < 0` the pair is inverted |
| `BoundsPolicy.DegenerateIffNegativeGuess` | trace_fitter.py:207-214 | some lower bound is not strictly below its upper bound exactly when some guess entry is negative |
| `BoundsPolicy.BoundsExample` | trace_fitter.py:207-214 | the guess `(0, 2, 3, 4)` gives `(-inf, inf)` for parameter 0 and `(0.2, 10)` for parameter 1 |
| `TraceFitter.SetUpFit` | trace_fitter.py:256-259 | a window failure is reported before the guess is consulted; a guess failure is reported next; on success the solver data are the window slices of bins and trace, the guess is computed on the full trace, and the bounds are `BoundsFor(guess)` when bounds are on and unconstrained otherwise |
| `TraceFitter.TraceFitting` | trace_fitter.py:245-268 | any failure before the solver is passed through unchanged; otherwise the result is exactly the solver's answer on the problem SetUpFit assembles |
| `TraceFitter.TesFitData` | trace_fitter.py:256-264 | a TES fit gets equal-length, non-empty bins and samples; the first sample is at or below `0.2*peak` and every later one is above it; for a positive peak the peak sample is included |
| `TraceFitter.FetFitData` | trace_fitter.py:235-237 | a FET fit gets the `min(2000, len-ipeak-1)` samples and bins that follow the peak |
| `TraceFitter.OtherFitData` | trace_fitter.py:227-228 | any other sensor kind fits the whole trace and its bins |
| `TraceFitter.FitBounds` | trace_fitter.py:259 | with bounds off, or without a guess function, the solver is unconstrained; otherwise there is one bound pair per guessed parameter |

## Findings

| source | as written | input that shows it | evidently intended | confidence | as-written member | corrected member |
|---|---|---|---|---|---|---|
| trace_fitter.py:207-212 | `guessRange(guessFunc)` reads `guess`, which is a local of `trace_fitting` (line 258) and is bound neither in `guessRange` nor in the module | any `trace_fitting(bins, trace, shape, guessFunc)` with a guess function and `dobounds=True` raises NameError at line 207 | bounds computed from the guess vector of line 258, `(0.1*g, 5*g)` per entry, freed for `g == 0` | high; not executed | `BoundsPolicy.GuessRangeAsWrittenFails` | `BoundsPolicy.GuessRange` |

## Left out

- `TESshape` and `FETshape` (trace_fitter.py:117-126): exponential pulse shapes, which are floating-point numerics.
- The `tpeak`, `offsetGuess`, `pmax` and `scaleGuess` steps of `guessTES` (trace_fitter.py:147-159): logarithm and exponential numerics. Line 153 also calls a `pulseShape` that is not in scope, so `guessTES` as written raises NameError once its four searches succeed. Its intended target, `TESshape`, is exponential numerics and is not part of this model, so this is not listed under "## Findings".
- `scaleGuess = peak/(decayGuess-recoveryGuess)` of `guessFET` (trace_fitter.py:192): IEEE division, where an infinite or equal rate gives infinities or NaN.
- Because the amplitude steps are left out, `TraceFitter` does not call `GuessTES` or `GuessFET`. It takes the guess function as a parameter, as `trace_fitting` does.
- `curve_fit` (trace_fitter.py:263-264): an external nonlinear solver, modelled as the `Solver` parameter that receives the assembled `FitProblem`.
- `traceFit`, `traceFit_TES` and `traceFit_FET` (trace_fitter.py:55-111): trace reading through `traces_rdf` and report printing. Their choice of bounds on for TES and off for FET (lines 82 and 103) is the `doBounds` argument of `TraceFitting`.
- `trace_plots` and `trace_overlay` (trace_fitter.py:271-318): plotting and file output.
- `getargs`, `usage` and `main` (trace_fitter.py:11-27, 323-379): command-line handling.
- The verbose diagnostics, the `print` in `guessRange` (trace_fitter.py:202) and the `CDMS_SUPERSIM` environment read (trace_fitter.py:38): console and environment I/O.
- Floating point: samples, bin times and thresholds are exact reals, so rounding and NaN are not modelled. `np.e` is taken as the exact decimal 2.718281828459045.
- Bins and trace of different lengths: the guess functions and the fit set-up require `|bins| == |trace|`, which is the pairing every trace source delivers.
