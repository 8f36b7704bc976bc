/** The entities every stage of the trace fitter shares: the sensor kind, the
    error taxonomy, the fit window and numpy-style slicing. */
module TraceTypes {

  /** The sensor the trace comes from. The source keeps it in the module-level
      string `sensorType` (trace_fitter.py:53, 61-62); here it is passed
      explicitly. `Other` is any other value that global may hold (its initial
      `None` among them), which the window selector treats as "no restriction". */
  datatype SensorKind = TES | FET | Other

  /** The threshold crossing that a search failed to find. */
  datatype Feature =
    | WindowStart   // TES window: last sample before the peak at or below cut*peak
    | WindowEnd     // TES window: first sample from the peak at or below cut*peak
    | RiseLow       // TES guess: last sample before the peak at or below 0.1*peak
    | RiseHigh      // TES guess: last sample before the peak at or below 0.2*e*peak
    | FallLow       // TES guess: first sample from the peak at or below 0.8*peak
    | FallHigh      // TES guess: first sample from the peak at or below 0.4*peak/e
    | TriggerBin    // FET guess: first bin with t >= 0
    | DecayTail     // FET guess: last sample from the peak at or above peak/(2e)
    | RecoveryLow   // FET guess: first sample from the minimum at or above 0.8*tmin
    | RecoveryHigh  // FET guess: first sample from the minimum at or above min(0.4*tmin/e, tlast)

  /** Where the source raises (ValueError from `max` of an empty array,
      IndexError from `np.nonzero(...)[0][0]` on an empty match, a solver
      failure), the model returns one of these. */
  datatype FitError =
    | EmptyTrace
    | FeatureNotFound(feature: Feature)
    | FitDidNotConverge

  /** A half-open sample-index range `[lo, hi)`; `hi` may lie beyond the end of
      the trace (the FET window), in which case slicing stops at the end. */
  datatype Window = Window(lo: nat, hi: nat)

  /** The time axis of a trace: strictly increasing bin times. */
  predicate Increasing(bins: seq<real>) {
    forall i, j | 0 <= i < j < |bins| :: bins[i] < bins[j]
  }

  function MinNat(a: nat, b: nat): nat {
    if a <= b then a else b
  }

  /** Python's `s[lo:hi]` for non-negative `lo` and `hi`: both ends are clipped
      to the length and an inverted range is empty. */
  function Slice<T>(s: seq<T>, lo: nat, hi: nat): (r: seq<T>)
    ensures |r| == if lo < MinNat(hi, |s|) then MinNat(hi, |s|) - lo else 0
    ensures forall k | 0 <= k < |r| :: r[k] == s[lo + k]
  {
    var a := MinNat(lo, |s|);
    var b := MinNat(hi, |s|);
    if b <= a then [] else s[a..b]
  }
}
