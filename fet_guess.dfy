/** The index searches and the recovery-rate clamp of the FET initial-guess
    heuristic `guessFET` (trace_fitter.py:161-189). */
module FetGuess {
  import opened Wrappers
  import opened Numerics
  import opened TraceTypes
  import opened FeatureLocator

  /** The threshold levels, as functions of the peak and of the minimum. */
  function DecayLevel(peak: real): real { peak / (2.0 * E) }
  function RecoveryLowLevel(tmin: real): real { tmin * 0.8 }
  function RecoveryHighLevel(tmin: real, tlast: real): real {
    var undershootLevel := tmin * 0.4 / E;
    if tlast < undershootLevel then tlast else undershootLevel
  }

  /** A non-negative peak is itself at or above the decay level. */
  lemma DecayLevelBelowPeak(peak: real)
    requires peak >= 0.0
    ensures DecayLevel(peak) <= peak
  {
    EFacts();
    assert peak / (2.0 * E) == (1.0 / (2.0 * E)) * peak;
  }

  /** Below a negative minimum the levels are ordered: the minimum lies below
      80% of itself, and 80% of it below 40%/e of it. */
  lemma RecoveryLevelsOrdered(tmin: real)
    requires tmin < 0.0
    ensures tmin < RecoveryLowLevel(tmin) < tmin * 0.4 / E
  {
    EFacts();
    assert tmin * 0.4 / E == (0.4 / E) * tmin;
  }

  /** `recoveryGuess < 0.1*decayGuess` resets the recovery rate to 0
      (trace_fitter.py:187-189): a recovery slower than a tenth of the decay is
      taken to be noise. */
  function ClampRecovery(raw: ExtReal, decay: ExtReal): (r: ExtReal)
    ensures r == raw || r == Finite(0.0)
    ensures r == Finite(0.0) || !Lt(r, Scale(0.1, decay))
    ensures r != raw ==> Lt(raw, Scale(0.1, decay))
  {
    if Lt(raw, Scale(0.1, decay)) then Finite(0.0) else raw
  }

  /** The clamp is idempotent: a rate it kept or reset passes through again unchanged. */
  lemma ClampRecoveryIdempotent(raw: ExtReal, decay: ExtReal)
    ensures ClampRecovery(ClampRecovery(raw, decay), decay) == ClampRecovery(raw, decay)
  {
  }

  /** What the undershoot branch (taken only when `trace.min() < 0`) finds:
      the largest sample from the minimum on, two offsets into `trace[imin:]`,
      and the recovery rate they give before the clamp. */
  datatype Undershoot =
    | NoUndershoot
    | Undershoot(tlast: real, rlo: nat, rhi: nat, raw: ExtReal)

  /** What `guessFET` finds apart from the amplitude. */
  datatype FetFeatures = FetFeatures(
    peak: real, ipeak: nat,
    istart: nat, offset: int,
    dhi: nat, decay: ExtReal,
    tmin: real, imin: nat,
    undershoot: Undershoot, recovery: ExtReal)

  /** `u` is what the undershoot branch finds on `tail == trace[imin:]`. As in
      the source, the offsets index `bins` directly. */
  predicate IsUndershoot(bins: seq<real>, tail: seq<real>, tmin: real, u: Undershoot) {
    && u.Undershoot?
    && |tail| > 0 && u.tlast == Max(tail)
    && IsFirst(tail, AtLeast, RecoveryLowLevel(tmin), u.rlo)
    && IsFirst(tail, AtLeast, RecoveryHighLevel(tmin, u.tlast), u.rhi)
    && u.rlo < |bins| && u.rhi < |bins|
    && u.raw == TwoOver(bins[u.rhi] - bins[u.rlo])
  }

  /** `dhi` is the last offset from the peak at or above peak/(2e) and `decay`
      the rate it gives; as in the source the offset indexes `bins` directly. */
  predicate IsDecay(bins: seq<real>, trace: seq<real>, ipeak: nat, dhi: nat, decay: ExtReal) {
    && |bins| == |trace| && ipeak < |trace|
    && IsLast(trace[ipeak..], AtLeast, DecayLevel(trace[ipeak]), dhi)
    && decay == TwoOver(bins[dhi] - bins[0])
  }

  /** `imin` is the minimum of the trace, and the recovery rate is 0 unless
      the trace dips below zero, in which case it is the clamped undershoot rate. */
  predicate IsRecovery(bins: seq<real>, trace: seq<real>, decay: ExtReal,
                       imin: nat, u: Undershoot, recovery: ExtReal) {
    && IsTrough(trace, imin)
    && (trace[imin] < 0.0 <==> u.Undershoot?)
    && (u.NoUndershoot? ==> recovery == Finite(0.0))
    && (u.Undershoot? ==>
          && IsUndershoot(bins, trace[imin..], trace[imin], u)
          && recovery == ClampRecovery(u.raw, decay))
  }

  /** `g` holds what the heuristic is meant to find. `istart` is one past the
      first bin at or after the trigger and `offset` the index difference
      `ipeak - istart`. */
  predicate IsFetFeatures(bins: seq<real>, trace: seq<real>, g: FetFeatures) {
    && |bins| == |trace|
    && IsPeak(trace, g.ipeak) && g.peak == trace[g.ipeak]
    && g.istart >= 1 && IsFirst(bins, AtLeast, 0.0, g.istart - 1)
    && g.offset == g.ipeak - g.istart
    && IsDecay(bins, trace, g.ipeak, g.dhi, g.decay)
    && IsRecovery(bins, trace, g.decay, g.imin, g.undershoot, g.recovery)
    && g.tmin == trace[g.imin]
  }

  /** The decay search of `guessFET` (trace_fitter.py:173-174). */
  function DecayFeatures(bins: seq<real>, trace: seq<real>, ipeak: nat): (r: Option<(nat, ExtReal)>)
    requires |bins| == |trace| && ipeak < |trace|
    ensures r.None? <==> NonePass(trace[ipeak..], AtLeast, DecayLevel(trace[ipeak]))
    ensures r.Some? ==> IsDecay(bins, trace, ipeak, r.value.0, r.value.1)
  {
    match LastIndexWhere(trace[ipeak..], AtLeast, DecayLevel(trace[ipeak]))
    case None => None
    case Some(dhi) => Some((dhi, TwoOver(bins[dhi] - bins[0])))
  }

  /** The undershoot branch of `guessFET` (trace_fitter.py:182-189). */
  function RecoveryFeatures(bins: seq<real>, trace: seq<real>, imin: nat, decay: ExtReal)
    : (r: Result<(Undershoot, ExtReal), FitError>)
    requires |bins| == |trace| && imin < |trace|
    requires trace[imin] < 0.0
    ensures r.Success? ==>
      && IsUndershoot(bins, trace[imin..], trace[imin], r.value.0)
      && r.value.1 == ClampRecovery(r.value.0.raw, decay)
    ensures r == Failure(FeatureNotFound(RecoveryLow)) <==>
      NonePass(trace[imin..], AtLeast, RecoveryLowLevel(trace[imin]))
    ensures r.Failure? ==> r.error == FeatureNotFound(RecoveryLow) || r.error == FeatureNotFound(RecoveryHigh)
  {
    var tmin := trace[imin];
    var tail := trace[imin..];
    var tlast := Max(tail);
    match FirstIndexWhere(tail, AtLeast, RecoveryLowLevel(tmin))
    case None => Failure(FeatureNotFound(RecoveryLow))
    case Some(rlo) =>
      match FirstIndexWhere(tail, AtLeast, RecoveryHighLevel(tmin, tlast))
      case None => Failure(FeatureNotFound(RecoveryHigh))
      case Some(rhi) =>
        var raw := TwoOver(bins[rhi] - bins[rlo]);
        Success((Undershoot(tlast, rlo, rhi, raw), ClampRecovery(raw, decay)))
  }

  /** The minimum and the recovery rate of `guessFET` (trace_fitter.py:177-189). */
  function RecoveryGuess(bins: seq<real>, trace: seq<real>, decay: ExtReal)
    : (r: Result<(nat, Undershoot, ExtReal), FitError>)
    requires |bins| == |trace| && |trace| > 0
    ensures r.Success? ==> IsRecovery(bins, trace, decay, r.value.0, r.value.1, r.value.2)
    ensures var imin := TroughIndex(trace);
      r == Failure(FeatureNotFound(RecoveryLow)) <==>
        trace[imin] < 0.0 && NonePass(trace[imin..], AtLeast, RecoveryLowLevel(trace[imin]))
    ensures r.Failure? ==> r.error == FeatureNotFound(RecoveryLow) || r.error == FeatureNotFound(RecoveryHigh)
  {
    var imin := TroughIndex(trace);
    if trace[imin] < 0.0 then
      match RecoveryFeatures(bins, trace, imin, decay)
      case Failure(e) => Failure(e)
      case Success((u, recovery)) => Success((imin, u, recovery))
    else
      Success((imin, NoUndershoot, Finite(0.0)))
  }

  /** The search and clamp part of `guessFET(bins, trace)`, in the source's
      order; the first search that matches nothing is the error. */
  function GuessFET(bins: seq<real>, trace: seq<real>): (r: Result<FetFeatures, FitError>)
    requires |bins| == |trace|
    ensures r == Failure(EmptyTrace) <==> |trace| == 0
    ensures r.Success? ==> IsFetFeatures(bins, trace, r.value)
    ensures |trace| > 0 ==>
      (r == Failure(FeatureNotFound(TriggerBin)) <==> NonePass(bins, AtLeast, 0.0))
    ensures r.Failure? ==> r.error in {EmptyTrace, FeatureNotFound(TriggerBin), FeatureNotFound(DecayTail),
                                       FeatureNotFound(RecoveryLow), FeatureNotFound(RecoveryHigh)}
  {
    if |trace| == 0 then Failure(EmptyTrace)
    else
      var ipeak := PeakIndex(trace);
      var peak := trace[ipeak];
      match FirstIndexWhere(bins, AtLeast, 0.0)
      case None => Failure(FeatureNotFound(TriggerBin))
      case Some(trigger) =>
        // The peak is expected one bin after the trigger; the offset is an index difference.
        var istart := trigger + 1;
        var offset := ipeak - istart;
        match DecayFeatures(bins, trace, ipeak)
        case None => Failure(FeatureNotFound(DecayTail))
        case Some((dhi, decay)) =>
          match RecoveryGuess(bins, trace, decay)
          case Failure(e) => Failure(e)
          case Success((imin, u, recovery)) =>
            Success(FetFeatures(peak, ipeak, istart, offset, dhi, decay, trace[imin], imin, u, recovery))
  }

  /** Which search `guessFET` fails at: the decay search when nothing from the
      peak on reaches peak/(2e), the first recovery search when the trace dips
      below zero and never climbs back to 80% of its minimum. */
  lemma GuessFETFailures(bins: seq<real>, trace: seq<real>)
    requires |bins| == |trace| && |trace| > 0
    ensures var r := GuessFET(bins, trace);
      var ipeak := PeakIndex(trace);
      var imin := TroughIndex(trace);
      && (r == Failure(FeatureNotFound(DecayTail)) <==>
            && !NonePass(bins, AtLeast, 0.0)
            && NonePass(trace[ipeak..], AtLeast, DecayLevel(trace[ipeak])))
      && (r == Failure(FeatureNotFound(RecoveryLow)) <==>
            && !NonePass(bins, AtLeast, 0.0)
            && !NonePass(trace[ipeak..], AtLeast, DecayLevel(trace[ipeak]))
            && trace[imin] < 0.0
            && NonePass(trace[imin..], AtLeast, RecoveryLowLevel(trace[imin])))
  {
    var ipeak := PeakIndex(trace);
    if !NonePass(bins, AtLeast, 0.0) && !NonePass(trace[ipeak..], AtLeast, DecayLevel(trace[ipeak])) {
      var decay := DecayFeatures(bins, trace, ipeak).value.1;
      assert GuessFET(bins, trace).Failure? <==> RecoveryGuess(bins, trace, decay).Failure?;
      assert GuessFET(bins, trace).Failure? ==> GuessFET(bins, trace).error == RecoveryGuess(bins, trace, decay).error;
    }
  }

  /** A non-negative peak always has a decay tail: the peak sample itself is at
      or above peak/(2e). */
  lemma FetDecayTailFound(bins: seq<real>, trace: seq<real>)
    requires |bins| == |trace| && |trace| > 0
    requires trace[PeakIndex(trace)] >= 0.0
    ensures GuessFET(bins, trace) != Failure(FeatureNotFound(DecayTail))
  {
    var ipeak := PeakIndex(trace);
    var after := trace[ipeak..];
    DecayLevelBelowPeak(trace[ipeak]);
    assert Passes(after[0], AtLeast, DecayLevel(trace[ipeak]));
  }

  /** The second recovery search never fails: its level is at most the largest
      sample from the minimum on (`tlast`), and that sample matches. */
  lemma RecoveryHighFound(bins: seq<real>, trace: seq<real>, imin: nat, decay: ExtReal)
    requires |bins| == |trace| && imin < |trace|
    requires trace[imin] < 0.0
    ensures RecoveryFeatures(bins, trace, imin, decay) != Failure(FeatureNotFound(RecoveryHigh))
  {
    var tail := trace[imin..];
    var tlast := Max(tail);
    var k :| 0 <= k < |tail| && tail[k] == tlast;
    assert Passes(tail[k], AtLeast, RecoveryHighLevel(trace[imin], tlast));
  }

  /** Hence `guessFET` never reports the second recovery search as failed. */
  lemma FetRecoveryHighNeverFails(bins: seq<real>, trace: seq<real>)
    requires |bins| == |trace|
    ensures GuessFET(bins, trace) != Failure(FeatureNotFound(RecoveryHigh))
  {
    if |trace| > 0 {
      var ipeak := PeakIndex(trace);
      var imin := TroughIndex(trace);
      var d := DecayFeatures(bins, trace, ipeak);
      if FirstIndexWhere(bins, AtLeast, 0.0).Some? && d.Some? && trace[imin] < 0.0 {
        RecoveryHighFound(bins, trace, imin, d.value.1);
        assert GuessFET(bins, trace).Failure? ==>
          GuessFET(bins, trace).error == RecoveryFeatures(bins, trace, imin, d.value.1).error;
      }
    }
  }

  /** `guessFET` succeeds exactly when a bin lies at or after the trigger,
      something from the peak on reaches peak/(2e), and, if the trace dips
      below zero, something from the minimum on climbs back to 80% of it. */
  lemma GuessFETSucceeds(bins: seq<real>, trace: seq<real>)
    requires |bins| == |trace| && |trace| > 0
    ensures var ipeak := PeakIndex(trace);
      var imin := TroughIndex(trace);
      GuessFET(bins, trace).Success? <==>
        && !NonePass(bins, AtLeast, 0.0)
        && !NonePass(trace[ipeak..], AtLeast, DecayLevel(trace[ipeak]))
        && !(trace[imin] < 0.0 && NonePass(trace[imin..], AtLeast, RecoveryLowLevel(trace[imin])))
  {
    GuessFETFailures(bins, trace);
    FetRecoveryHighNeverFails(bins, trace);
  }

  /** A flat trace: at a non-negative baseline every search of `guessFET`
      succeeds once some bin lies at or after the trigger, but at a negative
      baseline every sample lies below peak/(2e) and the decay search fails. */
  lemma FlatTraceFetGuess(bins: seq<real>, trace: seq<real>)
    requires |bins| == |trace| && |trace| > 0
    requires forall j | 0 <= j < |trace| :: trace[j] == trace[0]
    requires exists j | 0 <= j < |bins| :: bins[j] >= 0.0
    ensures trace[0] >= 0.0 ==> GuessFET(bins, trace).Success?
    ensures trace[0] < 0.0 ==> GuessFET(bins, trace) == Failure(FeatureNotFound(DecayTail))
  {
    var ipeak := PeakIndex(trace);
    var imin := TroughIndex(trace);
    var p := trace[0];
    assert trace[ipeak] == p && trace[imin] == p;
    var j :| 0 <= j < |bins| && bins[j] >= 0.0;
    assert Passes(bins[j], AtLeast, 0.0);
    GuessFETFailures(bins, trace);
    if p >= 0.0 {
      FetDecayTailFound(bins, trace);
      GuessFETSucceeds(bins, trace);
    } else {
      EFacts();
      assert DecayLevel(p) == (1.0 / (2.0 * E)) * p;
      assert p < DecayLevel(p);
      var after := trace[ipeak..];
      assert forall k | 0 <= k < |after| :: after[k] == p;
    }
  }

  /** On the recovering side the two offsets come out in order: the 80% point
      lies strictly after the minimum and no later than the second point. */
  lemma FetRecoverySearchOrder(bins: seq<real>, trace: seq<real>)
    requires |bins| == |trace|
    requires GuessFET(bins, trace).Success?
    requires GuessFET(bins, trace).value.undershoot.Undershoot?
    ensures var u := GuessFET(bins, trace).value.undershoot;
      0 < u.rlo <= u.rhi
  {
    var g := GuessFET(bins, trace).value;
    var u := g.undershoot;
    var tail := trace[g.imin..];
    RecoveryLevelsOrdered(g.tmin);
    assert tail[0] == g.tmin;
    // The 80% sample bounds tlast from below, so the second level is the stricter one.
    assert RecoveryLowLevel(g.tmin) <= RecoveryHighLevel(g.tmin, u.tlast);
    FirstWeakerNoLater(tail, AtLeast, RecoveryHighLevel(g.tmin, u.tlast), RecoveryLowLevel(g.tmin));
  }

  /** The recovery rate is 0 unless the trace dips below zero, a recovery
      rate that survives is at least a tenth of the decay rate, and with
      strictly increasing bins it is never negative. */
  lemma FetRecoveryRate(bins: seq<real>, trace: seq<real>)
    requires |bins| == |trace|
    requires GuessFET(bins, trace).Success?
    ensures var g := GuessFET(bins, trace).value;
      && (g.recovery != Finite(0.0) ==> Min(trace) < 0.0)
      && (g.recovery == Finite(0.0) || !Lt(g.recovery, Scale(0.1, g.decay)))
    ensures Increasing(bins) ==> Le(Finite(0.0), GuessFET(bins, trace).value.recovery)
  {
    var g := GuessFET(bins, trace).value;
    assert g.tmin == Min(trace) by {
      assert IsTrough(trace, TroughIndex(trace));
    }
    if Increasing(bins) && g.undershoot.Undershoot? {
      var u := g.undershoot;
      FetRecoverySearchOrder(bins, trace);
      assert u.rlo < u.rhi ==> bins[u.rlo] < bins[u.rhi];
    }
  }

  /** A decay rate of 1 and a raw recovery rate of 0.05 report a recovery rate of 0. */
  lemma ClampRecoveryExample()
    ensures ClampRecovery(Finite(0.05), Finite(1.0)) == Finite(0.0)
  {
  }
}
