/** Percentage differences as pandas computes them in float64: a division by
    zero gives +inf or -inf, and 0 / 0 gives NaN. Finite values are held as
    exact reals (the scripts' `.round(2)` is not modelled). */
module Percent {

  datatype Pct = NaN | Finite(value: real) | Infinite(positive: bool)

  function AbsReal(x: real): (r: real)
    ensures r >= 0.0 && (r == x || r == -x)
  {
    if x < 0.0 then -x else x
  }

  /** `diff / base * 100` on numbers that are both present. */
  function Ratio(diff: int, base: int): (p: Pct)
    ensures p.NaN? <==> base == 0 && diff == 0
    ensures p.Infinite? <==> base == 0 && diff != 0
    ensures p.Infinite? ==> (p.positive <==> diff > 0)
    ensures p.Finite? ==> p.value * (base as real) == (diff as real) * 100.0
  {
    if base != 0 then Finite((diff as real) * 100.0 / (base as real))
    else if diff > 0 then Infinite(true)
    else if diff < 0 then Infinite(false)
    else NaN
  }

  /** `abs(p) > t`; every comparison with NaN is false. */
  predicate AbsGreater(p: Pct, t: real) {
    match p
    case NaN => false
    case Infinite(_) => true
    case Finite(v) => AbsReal(v) > t
  }

  /** `a` may stand before `b` in `sort_values(key=abs, ascending=False)`:
      larger magnitudes first, infinities first of all, NaN last. */
  predicate Before(a: Pct, b: Pct) {
    match (a, b)
    case (_, NaN) => true
    case (NaN, _) => false
    case (Infinite(_), _) => true
    case (Finite(_), Infinite(_)) => false
    case (Finite(x), Finite(y)) => AbsReal(x) >= AbsReal(y)
  }

  lemma BeforeTotal(a: Pct, b: Pct)
    ensures Before(a, b) || Before(b, a)
  {
  }

  lemma BeforeTransitive(a: Pct, b: Pct, c: Pct)
    requires Before(a, b) && Before(b, c)
    ensures Before(a, c)
  {
  }

  /** The sort order agrees with the magnitude test used by the reports: a
      row whose magnitude passes a threshold sorts before one that does not. */
  lemma BeforeRespectsThreshold(a: Pct, b: Pct, t: real)
    requires t >= 0.0
    requires AbsGreater(a, t) && !AbsGreater(b, t)
    ensures Before(a, b) && !Before(b, a)
  {
  }
}
