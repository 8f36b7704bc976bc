/** FittingWindowSelector: the `[start, end)` sample range the fit is restricted
    to (`fittingRange`, trace_fitter.py:219-240). */
module FittingWindow {
  import opened Wrappers
  import opened TraceTypes
  import opened FeatureLocator

  /** The default relative cut height of `fittingRange(trace, cut=0.2)`. */
  const DEFAULT_CUT: real := 0.2

  /** The TES cut level `cut*peak`. Kept as a function of its own so that the
      product stays a single term in the proofs. */
  function CutLevel(cut: real, peak: real): real {
    cut * peak
  }

  /** For a positive peak a cut fraction below one puts the level below the peak. */
  lemma CutLevelBelowPeak(cut: real, peak: real)
    requires peak > 0.0 && 0.0 <= cut < 1.0
    ensures CutLevel(cut, peak) < peak
  {
    assert (1.0 - cut) * peak > 0.0;
  }

  /** The fixed FET look-ahead after the peak (a placeholder in the source, which
      notes the decay and recovery guesses would be a better basis). */
  const FET_LOOKAHEAD: nat := 2000

  /** `w` is the window around index `ipeak` at height `level`: `w.lo` is the
      last sample before `ipeak` at or below the level, `w.hi` the first sample
      from `ipeak` on at or below it, and everything between them is above it. */
  predicate WindowAround(trace: seq<real>, ipeak: nat, level: real, w: Window) {
    && ipeak < |trace|
    && w.lo < ipeak && trace[w.lo] <= level
    && (forall j | w.lo < j < ipeak :: trace[j] > level)
    && ipeak <= w.hi < |trace| && trace[w.hi] <= level
    && (forall j | ipeak <= j < w.hi :: trace[j] > level)
  }

  /** The TES branch of `fittingRange` (trace_fitter.py:232-233): a backward
      search on `trace[:ipeak]` and a forward search on `trace[ipeak:]`, each
      failing when its match is empty. */
  function TesWindow(trace: seq<real>, ipeak: nat, level: real): (r: Result<Window, FitError>)
    requires ipeak < |trace|
    ensures r.Success? ==> WindowAround(trace, ipeak, level, r.value)
    ensures r == Failure(FeatureNotFound(WindowStart)) <==>
      forall j | 0 <= j < ipeak :: trace[j] > level
    ensures r == Failure(FeatureNotFound(WindowEnd)) <==>
      && (exists j | 0 <= j < ipeak :: trace[j] <= level)
      && (forall j | ipeak <= j < |trace| :: trace[j] > level)
    ensures r.Success? || r == Failure(FeatureNotFound(WindowStart)) || r == Failure(FeatureNotFound(WindowEnd))
  {
    var before := trace[..ipeak];
    var after := trace[ipeak..];
    match LastIndexWhere(before, AtMost, level)
    case None =>
      assert forall j | 0 <= j < ipeak :: before[j] == trace[j];
      Failure(FeatureNotFound(WindowStart))
    case Some(ilo) =>
      // The forward search runs over trace[ipeak:], so its result is an offset from the peak.
      match FirstIndexWhere(after, AtMost, level)
      case None =>
        assert forall j | ipeak <= j < |trace| :: after[j - ipeak] == trace[j];
        Failure(FeatureNotFound(WindowEnd))
      case Some(k) =>
        assert forall j | ipeak <= j < |trace| :: after[j - ipeak] == trace[j];
        Success(Window(ilo, ipeak + k))
  }

  /** `fittingRange(trace, cut)` with the sensor kind passed explicitly. The
      peak is taken first, so an empty trace fails for every sensor kind. */
  function FittingRange(trace: seq<real>, cut: real, sensor: SensorKind): (r: Result<Window, FitError>)
    ensures |trace| == 0 ==> r == Failure(EmptyTrace)
    ensures |trace| > 0 && sensor == Other ==> r == Success(Window(0, |trace|))
    ensures |trace| > 0 && sensor == FET ==>
      var lo := PeakIndex(trace) + 1;
      r == Success(Window(lo, lo + FET_LOOKAHEAD))
    ensures |trace| > 0 && sensor == TES ==>
      var ipeak := PeakIndex(trace);
      r == TesWindow(trace, ipeak, CutLevel(cut, trace[ipeak]))
  {
    if |trace| == 0 then Failure(EmptyTrace)
    else
      var ipeak := PeakIndex(trace);
      var peak := trace[ipeak];
      match sensor
      case TES => TesWindow(trace, ipeak, CutLevel(cut, peak))
      case FET =>
        var ilo := ipeak + 1;
        Success(Window(ilo, ilo + FET_LOOKAHEAD))
      case Other =>
        Success(Window(0, |trace|))
  }

  /** The TES window always starts before the peak, and it reaches past the peak
      exactly when the cut level lies below the peak value; in particular for a
      positive peak and `0 <= cut < 1` the window strictly contains the peak. */
  lemma TesWindowContainsPeak(trace: seq<real>, cut: real)
    requires FittingRange(trace, cut, TES).Success?
    ensures |trace| > 0
    ensures var w := FittingRange(trace, cut, TES).value;
      var ipeak := PeakIndex(trace);
      && w.lo < ipeak
      && (ipeak < w.hi <==> CutLevel(cut, trace[ipeak]) < trace[ipeak])
    ensures var w := FittingRange(trace, cut, TES).value;
      var ipeak := PeakIndex(trace);
      trace[ipeak] > 0.0 && 0.0 <= cut < 1.0 ==> w.lo < ipeak < w.hi
  {
    var w := FittingRange(trace, cut, TES).value;
    var ipeak := PeakIndex(trace);
    var peak := trace[ipeak];
    assert WindowAround(trace, ipeak, CutLevel(cut, peak), w);
    if peak > 0.0 && 0.0 <= cut < 1.0 {
      CutLevelBelowPeak(cut, peak);
    }
  }

  /** A trace that never leaves a flat baseline has its peak at index 0 (the
      first of equal maxima), so the TES window search finds nothing before the
      peak and fails instead of indexing an empty match. */
  lemma FlatTraceHasNoTesWindow(trace: seq<real>, cut: real)
    requires |trace| > 0
    requires forall j | 0 <= j < |trace| :: trace[j] == trace[0]
    ensures FittingRange(trace, cut, TES) == Failure(FeatureNotFound(WindowStart))
  {
    var ipeak := PeakIndex(trace);
    // An earlier sample than the peak would be strictly smaller, but every sample equals trace[0].
    assert trace[ipeak] == trace[0];
    assert ipeak == 0;
  }
}
