/** The index searches of the TES initial-guess heuristic `guessTES`
    (trace_fitter.py:131-145): the e-folding points on the rising and the falling
    side of the peak and the rise and fall times they give. */
module TesGuess {
  import opened Wrappers
  import opened Numerics
  import opened TraceTypes
  import opened FeatureLocator

  /** The four threshold levels, as functions of the peak value. */
  function RiseLowLevel(peak: real): real { 0.1 * peak }
  function RiseHighLevel(peak: real): real { 0.2 * peak * E }
  function FallLowLevel(peak: real): real { 0.8 * peak }
  function FallHighLevel(peak: real): real { 0.4 * peak / E }

  /** For a positive peak the second rising level lies above the first and the
      second falling level below the first, and both falling levels below the peak. */
  lemma LevelsOrdered(peak: real)
    requires peak > 0.0
    ensures RiseLowLevel(peak) < RiseHighLevel(peak)
    ensures FallHighLevel(peak) < FallLowLevel(peak) < peak
  {
    EFacts();
    assert 0.2 * peak * E == (0.2 * E) * peak;
    assert 0.4 * peak / E == (0.4 / E) * peak;
  }

  /** What `guessTES` finds before it turns to the analytic peak time:
      the peak, the two rising-side indices into `trace[:ipeak]`, the two
      falling-side offsets into `trace[ipeak:]`, and the rise and fall guesses. */
  datatype TesFeatures = TesFeatures(
    peak: real, ipeak: nat,
    rlo: nat, rhi: nat,
    flo: nat, fhi: nat,
    rise: real, fall: real)

  /** `g` holds what the heuristic is meant to find in `trace`. As in the source,
      the falling-side offsets index `bins` directly (`bins[flo]`, `bins[fhi]`),
      which measures their separation correctly for uniformly spaced bins. */
  predicate IsTesFeatures(bins: seq<real>, trace: seq<real>, g: TesFeatures) {
    && |bins| == |trace|
    && IsPeak(trace, g.ipeak) && g.peak == trace[g.ipeak]
    && IsLast(trace[..g.ipeak], AtMost, RiseLowLevel(g.peak), g.rlo)
    && IsLast(trace[..g.ipeak], AtMost, RiseHighLevel(g.peak), g.rhi)
    && IsFirst(trace[g.ipeak..], AtMost, FallLowLevel(g.peak), g.flo)
    && IsFirst(trace[g.ipeak..], AtMost, FallHighLevel(g.peak), g.fhi)
    && g.rise == bins[g.rhi] - bins[g.rlo]
    && g.fall == (bins[g.fhi] - bins[g.flo]) / 2.0
  }

  /** The search part of `guessTES(bins, trace)`. The searches run in the
      source's order, and the first one that matches nothing is the error. */
  function GuessTES(bins: seq<real>, trace: seq<real>): (r: Result<TesFeatures, FitError>)
    requires |bins| == |trace|
    ensures r == Failure(EmptyTrace) <==> |trace| == 0
    ensures r.Success? ==> IsTesFeatures(bins, trace, r.value)
    ensures |trace| > 0 ==>
      var ipeak := PeakIndex(trace);
      var peak := trace[ipeak];
      var before := trace[..ipeak];
      var after := trace[ipeak..];
      && (r == Failure(FeatureNotFound(RiseLow)) <==>
            NonePass(before, AtMost, RiseLowLevel(peak)))
      && (r == Failure(FeatureNotFound(RiseHigh)) <==>
            && !NonePass(before, AtMost, RiseLowLevel(peak))
            && NonePass(before, AtMost, RiseHighLevel(peak)))
      && (r == Failure(FeatureNotFound(FallLow)) <==>
            && !NonePass(before, AtMost, RiseLowLevel(peak))
            && !NonePass(before, AtMost, RiseHighLevel(peak))
            && NonePass(after, AtMost, FallLowLevel(peak)))
      && (r == Failure(FeatureNotFound(FallHigh)) <==>
            && !NonePass(before, AtMost, RiseLowLevel(peak))
            && !NonePass(before, AtMost, RiseHighLevel(peak))
            && !NonePass(after, AtMost, FallLowLevel(peak))
            && NonePass(after, AtMost, FallHighLevel(peak)))
    ensures r.Failure? ==> r.error in {EmptyTrace, FeatureNotFound(RiseLow), FeatureNotFound(RiseHigh),
                                       FeatureNotFound(FallLow), FeatureNotFound(FallHigh)}
  {
    if |trace| == 0 then Failure(EmptyTrace)
    else
      var ipeak := PeakIndex(trace);
      var peak := trace[ipeak];
      var before := trace[..ipeak];
      var after := trace[ipeak..];
      match LastIndexWhere(before, AtMost, RiseLowLevel(peak))
      case None => Failure(FeatureNotFound(RiseLow))
      case Some(rlo) =>
        match LastIndexWhere(before, AtMost, RiseHighLevel(peak))
        case None => Failure(FeatureNotFound(RiseHigh))
        case Some(rhi) =>
          match FirstIndexWhere(after, AtMost, FallLowLevel(peak))
          case None => Failure(FeatureNotFound(FallLow))
          case Some(flo) =>
            match FirstIndexWhere(after, AtMost, FallHighLevel(peak))
            case None => Failure(FeatureNotFound(FallHigh))
            case Some(fhi) =>
              Success(TesFeatures(peak, ipeak, rlo, rhi, flo, fhi,
                                  bins[rhi] - bins[rlo], (bins[fhi] - bins[flo]) / 2.0))
  }

  /** For a positive peak the searches come out in the order the heuristic
      assumes: the 10% point is no later than the 20%*e point on the rising
      side, and on the falling side the 80% point is no later than the 40%/e
      point, both strictly after the peak sample itself. */
  lemma TesSearchOrder(bins: seq<real>, trace: seq<real>)
    requires |bins| == |trace|
    requires GuessTES(bins, trace).Success?
    requires GuessTES(bins, trace).value.peak > 0.0
    ensures var g := GuessTES(bins, trace).value;
      g.rlo <= g.rhi < g.ipeak && 0 < g.flo <= g.fhi
  {
    var g := GuessTES(bins, trace).value;
    var before := trace[..g.ipeak];
    var after := trace[g.ipeak..];
    LevelsOrdered(g.peak);
    LastWeakerNoEarlier(before, AtMost, RiseLowLevel(g.peak), RiseHighLevel(g.peak));
    FirstWeakerNoLater(after, AtMost, FallHighLevel(g.peak), FallLowLevel(g.peak));
    assert after[0] == g.peak;
  }

  /** With strictly increasing bins and a positive peak the rise and fall
      guesses are non-negative. */
  lemma TesGuessNonNegative(bins: seq<real>, trace: seq<real>)
    requires |bins| == |trace| && Increasing(bins)
    requires GuessTES(bins, trace).Success?
    requires GuessTES(bins, trace).value.peak > 0.0
    ensures GuessTES(bins, trace).value.rise >= 0.0
    ensures GuessTES(bins, trace).value.fall >= 0.0
  {
    var g := GuessTES(bins, trace).value;
    TesSearchOrder(bins, trace);
    assert g.rlo < g.rhi ==> bins[g.rlo] < bins[g.rhi];
    assert g.flo < g.fhi ==> bins[g.flo] < bins[g.fhi];
  }

  /** For a positive peak the second rising search cannot fail once the first
      has succeeded: the 10% sample also lies below 20%*e. */
  lemma TesRiseHighNeverFails(bins: seq<real>, trace: seq<real>)
    requires |bins| == |trace| && |trace| > 0
    requires trace[PeakIndex(trace)] > 0.0
    ensures GuessTES(bins, trace) != Failure(FeatureNotFound(RiseHigh))
  {
    var ipeak := PeakIndex(trace);
    var peak := trace[ipeak];
    var before := trace[..ipeak];
    LevelsOrdered(peak);
    if !NonePass(before, AtMost, RiseLowLevel(peak)) {
      var j :| 0 <= j < |before| && Passes(before[j], AtMost, RiseLowLevel(peak));
      assert Passes(before[j], AtMost, RiseHighLevel(peak));
    }
  }

  /** A flat trace has its peak at index 0, so there is no rising side and the
      heuristic fails at its first search instead of indexing an empty match. */
  lemma FlatTraceHasNoTesGuess(bins: seq<real>, trace: seq<real>)
    requires |bins| == |trace| && |trace| > 0
    requires forall j | 0 <= j < |trace| :: trace[j] == trace[0]
    ensures GuessTES(bins, trace) == Failure(FeatureNotFound(RiseLow))
  {
    var ipeak := PeakIndex(trace);
    assert trace[ipeak] == trace[0];
    assert ipeak == 0;
  }
}
