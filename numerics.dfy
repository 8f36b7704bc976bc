/** The numeric vocabulary of the fitter: Euler's number and the extended reals
    (the values a float64 bound or a rate can take apart from NaN). */
module Numerics {

  /** numpy's `np.e`, taken as an exact real. Every fact the model uses about it
      follows from 1 < E < 3. */
  const E: real := 2.718281828459045

  /** A real number or one of the two infinities. Used for optimizer bounds
      (`-np.inf`, `np.inf`) and for rates computed as `2./d`, which numpy
      evaluates to `+inf` when `d == 0.0`. */
  datatype ExtReal = NegInf | PosInf | Finite(v: real)

  /** The order of the extended reals. */
  predicate Le(a: ExtReal, b: ExtReal) {
    match (a, b)
    case (NegInf, _) => true
    case (_, PosInf) => true
    case (Finite(x), Finite(y)) => x <= y
    case _ => false
  }

  predicate Lt(a: ExtReal, b: ExtReal) {
    Le(a, b) && a != b
  }

  /** `c * x` for a positive real constant `c`, as float64 multiplication
      behaves on the infinities. */
  function Scale(c: real, x: ExtReal): (r: ExtReal)
    requires c > 0.0
    ensures r.Finite? <==> x.Finite?
    ensures x.Finite? ==> r.v == c * x.v
    ensures !x.Finite? ==> r == x
  {
    match x
    case Finite(y) => Finite(c * y)
    case _ => x
  }

  /** `2./d` evaluated on a numpy float64 difference `d`: a zero difference
      gives `+inf` instead of an exception. */
  function TwoOver(d: real): (r: ExtReal)
    ensures r == PosInf <==> d == 0.0
    ensures d > 0.0 ==> r.Finite? && r.v > 0.0
    ensures d < 0.0 ==> r.Finite? && r.v < 0.0
    ensures d != 0.0 ==> r == Finite(2.0 / d)
  {
    if d == 0.0 then PosInf else Finite(2.0 / d)
  }

  /** The two facts about E that the guess heuristics rely on: the second rising
      threshold lies above the first, the second falling threshold below the first. */
  lemma EFacts()
    ensures 1.0 < E
    ensures 0.2 * E > 0.1
    ensures 0.4 / E < 0.8
    ensures 1.0 / (2.0 * E) < 1.0
  {
  }
}
