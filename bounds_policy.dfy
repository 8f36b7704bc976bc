/** BoundsPolicy: the optimizer bounds derived from an initial guess
    (`guessRange`, trace_fitter.py:200-216). */
module BoundsPolicy {
  import opened Wrappers
  import opened Numerics

  /** The `bounds` argument of the solver: the scalar pair `(-np.inf, np.inf)`
      for every parameter, or one lower and one upper bound per parameter. */
  datatype Bounds =
    | Unconstrained
    | PerParameter(lower: seq<ExtReal>, upper: seq<ExtReal>)

  /** The bounds of one parameter with guess `g`: `(0.1*g, 5*g)`, except that a
      guess of exactly 0 is left free, `(-inf, +inf)`. */
  function LowerFor(g: real): ExtReal {
    if g == 0.0 then NegInf else Finite(0.1 * g)
  }

  function UpperFor(g: real): ExtReal {
    if g == 0.0 then PosInf else Finite(5.0 * g)
  }

  /** The bounds policy as a value: no guess gives unconstrained bounds, a guess
      vector gives one pair per parameter. */
  function BoundsFor(guess: Option<seq<real>>): (b: Bounds)
    ensures guess.None? <==> b == Unconstrained
    ensures guess.Some? ==>
      && |b.lower| == |guess.value| && |b.upper| == |guess.value|
      && forall i | 0 <= i < |guess.value| ::
           b.lower[i] == LowerFor(guess.value[i]) && b.upper[i] == UpperFor(guess.value[i])
  {
    match guess
    case None => Unconstrained
    case Some(g) =>
      PerParameter(seq(|g|, i requires 0 <= i < |g| => LowerFor(g[i])),
                   seq(|g|, i requires 0 <= i < |g| => UpperFor(g[i])))
  }

  /** `guessRange`: scale the guess into lower and upper arrays, then overwrite
      the entries of zero guesses with the infinities. The source reads the
      guess vector through a name `guess` that is not in scope there (it is a
      local of `trace_fitting`, which passes the guess function instead); here
      the guess vector is the argument and its absence stands for "no guess
      function". */
  method GuessRange(guess: Option<seq<real>>) returns (b: Bounds)
    ensures b == BoundsFor(guess)
  {
    if guess.None? {
      return Unconstrained;
    }
    var g := guess.value;
    var lower := new ExtReal[|g|](i requires 0 <= i < |g| => Finite(0.1 * g[i]));
    var upper := new ExtReal[|g|](i requires 0 <= i < |g| => Finite(5.0 * g[i]));
    for i := 0 to |g|
      invariant forall k | 0 <= k < i :: lower[k] == LowerFor(g[k]) && upper[k] == UpperFor(g[k])
      invariant forall k | i <= k < |g| :: lower[k] == Finite(0.1 * g[k]) && upper[k] == Finite(5.0 * g[k])
    {
      if g[i] == 0.0 {
        lower[i] := NegInf;
        upper[i] := PosInf;
      }
    }
    b := PerParameter(lower[..], upper[..]);
  }

  /** The exception `guessRange` raises as written. */
  datatype PyError = NameError(name: string)

  /** `guessRange(guessFunc)` as written (trace_fitter.py:200-212): without a
      guess function it returns the scalar pair; with one, line 207 evaluates
      `np.array(guess)` on a name bound neither in the function nor in the
      module, which raises NameError. */
  function GuessRangeAsWritten(hasGuessFunc: bool): (r: Result<Bounds, PyError>)
    ensures r.Success? <==> !hasGuessFunc
    ensures r.Success? ==> r.value == Unconstrained
    ensures r.Failure? ==> r.error == NameError("guess")
  {
    if !hasGuessFunc then Success(Unconstrained) else Failure(NameError("guess"))
  }

  /** As written, no per-parameter bounds ever reach the solver: with a guess
      function the call fails, while the intended policy gives the guess
      `(1)` the pair `(0.1, 5)`. */
  lemma GuessRangeAsWrittenFails()
    ensures GuessRangeAsWritten(true) == Failure(NameError("guess"))
    ensures forall h: bool :: !GuessRangeAsWritten(h).Success? || !GuessRangeAsWritten(h).value.PerParameter?
    ensures BoundsFor(Some([1.0])) == PerParameter([Finite(0.1)], [Finite(5.0)])
  {
  }

  /** A pair the solver refuses: some lower bound is not strictly below its upper bound. */
  predicate Degenerate(b: Bounds) {
    && b.PerParameter?
    && exists i | 0 <= i < |b.lower| && i < |b.upper| :: !Lt(b.lower[i], b.upper[i])
  }

  /** A positive guess lies inside its bounds and a zero guess is unconstrained;
      a negative guess gets an inverted pair, `0.1*g > 5*g`. */
  lemma BoundPair(g: real)
    ensures g > 0.0 ==> Le(LowerFor(g), Finite(g)) && Le(Finite(g), UpperFor(g)) && Lt(LowerFor(g), UpperFor(g))
    ensures g == 0.0 ==> LowerFor(g) == NegInf && UpperFor(g) == PosInf
    ensures g < 0.0 ==> Lt(UpperFor(g), LowerFor(g))
  {
  }

  /** The bounds built from a guess vector are degenerate exactly when some
      guess is negative: zero guesses are freed and positive ones widened. */
  lemma DegenerateIffNegativeGuess(g: seq<real>)
    ensures Degenerate(BoundsFor(Some(g))) <==> exists i | 0 <= i < |g| :: g[i] < 0.0
  {
    var b := BoundsFor(Some(g));
    if exists i | 0 <= i < |g| :: g[i] < 0.0 {
      var i :| 0 <= i < |g| && g[i] < 0.0;
      BoundPair(g[i]);
      assert !Lt(b.lower[i], b.upper[i]);
    }
    if Degenerate(b) {
      var i :| 0 <= i < |b.lower| && i < |b.upper| && !Lt(b.lower[i], b.upper[i]);
      BoundPair(g[i]);
      assert g[i] < 0.0;
    }
  }

  /** The guess (0, 2, 3, 4) leaves parameter 0 free and gives parameter 1 the
      bounds (0.2, 10). */
  lemma BoundsExample()
    ensures var b := BoundsFor(Some([0.0, 2.0, 3.0, 4.0]));
      && b.lower[0] == NegInf && b.upper[0] == PosInf
      && b.lower[1] == Finite(0.2) && b.upper[1] == Finite(10.0)
  {
  }
}
