/** TraceFitter: the step order of `trace_fitting` (trace_fitter.py:245-268).
    The window comes from the full trace, the initial guess from the full trace,
    the bounds from the guess, and an opaque solver fits the model to the
    windowed samples. */
module TraceFitter {
  import opened Wrappers
  import opened TraceTypes
  import opened FeatureLocator
  import opened FittingWindow
  import opened BoundsPolicy

  /** The fitted `a, t1, t2, offset` (rise and fall time for TES, decay and
      recovery rate for FET). */
  datatype Params = Params(a: real, t1: real, t2: real, offset: real)

  /** Everything `curve_fit` receives besides the pulse shape: the windowed bin
      times and samples, the initial guess `p0` (None when there is no guess
      function) and the bounds. */
  datatype FitProblem = FitProblem(x: seq<real>, y: seq<real>, p0: Option<seq<real>>, bounds: Bounds)

  /** An initial-guess heuristic over `(bins, trace)`; it may fail. */
  type GuessFn = (seq<real>, seq<real>) -> Result<seq<real>, FitError>

  /** The nonlinear least-squares solver, with the pulse shape already chosen. */
  type Solver = FitProblem -> Result<Params, FitError>

  /** Steps 1 to 3 of `trace_fitting`: the fit window, the guess and the bounds.
      A failing window search is reported before the guess is consulted. */
  function SetUpFit(bins: seq<real>, trace: seq<real>, sensor: SensorKind,
                    guessFunc: Option<GuessFn>, doBounds: bool): (r: Result<FitProblem, FitError>)
    requires |bins| == |trace|
    ensures FittingRange(trace, DEFAULT_CUT, sensor).Failure? ==>
      r == Failure(FittingRange(trace, DEFAULT_CUT, sensor).error)
    ensures FittingRange(trace, DEFAULT_CUT, sensor).Success? && guessFunc.Some? &&
            guessFunc.value(bins, trace).Failure? ==>
      r == Failure(guessFunc.value(bins, trace).error)
    ensures r.Success? ==>
      var w := FittingRange(trace, DEFAULT_CUT, sensor).value;
      var p := r.value;
      && FittingRange(trace, DEFAULT_CUT, sensor).Success?
      && p.x == Slice(bins, w.lo, w.hi) && p.y == Slice(trace, w.lo, w.hi)
      && (guessFunc.None? ==> p.p0.None?)
      && (guessFunc.Some? ==> p.p0 == Some(guessFunc.value(bins, trace).value))
      && p.bounds == (if doBounds then BoundsFor(p.p0) else Unconstrained)
    ensures r.Success? <==>
      && FittingRange(trace, DEFAULT_CUT, sensor).Success?
      && (guessFunc.Some? ==> guessFunc.value(bins, trace).Success?)
  {
    var w :- FittingRange(trace, DEFAULT_CUT, sensor);
    var guess :- match guessFunc
                 case None => Success(None)
                 case Some(f) =>
                   // The guess sees the whole trace, not the window.
                   match f(bins, trace)
                   case Failure(e) => Failure(e)
                   case Success(g) => Success(Some(g));
    var bounds := if doBounds then BoundsFor(guess) else Unconstrained;
    Success(FitProblem(Slice(bins, w.lo, w.hi), Slice(trace, w.lo, w.hi), guess, bounds))
  }

  /** `trace_fitting(bins, trace, pulseShape, guessFunc, dobounds)`: the
      solver sees exactly the problem SetUpFit assembles, and any failure
      before it is passed through unchanged. */
  function TraceFitting(bins: seq<real>, trace: seq<real>, sensor: SensorKind,
                        guessFunc: Option<GuessFn>, doBounds: bool, solver: Solver): (r: Result<Params, FitError>)
    requires |bins| == |trace|
    ensures SetUpFit(bins, trace, sensor, guessFunc, doBounds).Failure? ==>
      r == Failure(SetUpFit(bins, trace, sensor, guessFunc, doBounds).error)
    ensures SetUpFit(bins, trace, sensor, guessFunc, doBounds).Success? ==>
      r == solver(SetUpFit(bins, trace, sensor, guessFunc, doBounds).value)
  {
    var problem :- SetUpFit(bins, trace, sensor, guessFunc, doBounds);
    solver(problem)
  }

  /** The TES fit sees a paired run of samples that starts at the last sample at
      or below the cut level and is above the cut level everywhere after that;
      for a positive peak and a cut below one it includes the peak sample. */
  lemma TesFitData(bins: seq<real>, trace: seq<real>, guessFunc: Option<GuessFn>, doBounds: bool)
    requires |bins| == |trace|
    requires SetUpFit(bins, trace, TES, guessFunc, doBounds).Success?
    ensures |trace| > 0
    ensures var p := SetUpFit(bins, trace, TES, guessFunc, doBounds).value;
      var ipeak := PeakIndex(trace);
      var level := CutLevel(DEFAULT_CUT, trace[ipeak]);
      && |p.x| == |p.y| > 0
      && p.y[0] <= level
      && (forall k | 1 <= k < |p.y| :: p.y[k] > level)
      && (trace[ipeak] > 0.0 ==> trace[ipeak] in p.y)
  {
    var w := FittingRange(trace, DEFAULT_CUT, TES).value;
    var p := SetUpFit(bins, trace, TES, guessFunc, doBounds).value;
    var ipeak := PeakIndex(trace);
    TesWindowContainsPeak(trace, DEFAULT_CUT);
    assert forall k | 1 <= k < |p.y| :: p.y[k] == trace[w.lo + k];
    if trace[ipeak] > 0.0 {
      assert p.y[ipeak - w.lo] == trace[ipeak];
    }
  }

  /** The FET fit sees the samples after the peak, at most FET_LOOKAHEAD of them:
      the window is not clipped to the trace, the slice is. */
  lemma FetFitData(bins: seq<real>, trace: seq<real>, guessFunc: Option<GuessFn>, doBounds: bool)
    requires |bins| == |trace|
    requires SetUpFit(bins, trace, FET, guessFunc, doBounds).Success?
    ensures |trace| > 0
    ensures var p := SetUpFit(bins, trace, FET, guessFunc, doBounds).value;
      var ipeak := PeakIndex(trace);
      && |p.x| == |p.y| == MinNat(FET_LOOKAHEAD, |trace| - ipeak - 1)
      && forall k | 0 <= k < |p.y| :: p.y[k] == trace[ipeak + 1 + k] && p.x[k] == bins[ipeak + 1 + k]
  {
  }

  /** Any other sensor kind fits the whole trace. */
  lemma OtherFitData(bins: seq<real>, trace: seq<real>, guessFunc: Option<GuessFn>, doBounds: bool)
    requires |bins| == |trace|
    requires SetUpFit(bins, trace, Other, guessFunc, doBounds).Success?
    ensures SetUpFit(bins, trace, Other, guessFunc, doBounds).value.x == bins
    ensures SetUpFit(bins, trace, Other, guessFunc, doBounds).value.y == trace
  {
  }

  /** With bounds switched off (the FET call) or without a guess function the
      solver is unconstrained; otherwise the bounds have one pair per guessed
      parameter. */
  lemma FitBounds(bins: seq<real>, trace: seq<real>, sensor: SensorKind,
                  guessFunc: Option<GuessFn>, doBounds: bool)
    requires |bins| == |trace|
    requires SetUpFit(bins, trace, sensor, guessFunc, doBounds).Success?
    ensures var p := SetUpFit(bins, trace, sensor, guessFunc, doBounds).value;
      && (!doBounds || guessFunc.None? ==> p.bounds == Unconstrained)
      && (doBounds && guessFunc.Some? ==>
            |p.bounds.lower| == |p.bounds.upper| == |p.p0.value|)
  {
  }
}
