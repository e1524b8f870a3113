/** The columns every reconciliation adds to a joined table: `diferenca`,
    `percentual_diferenca` and `status`. The scripts compute them in float64
    on columns that may hold NaN; here a missing count is `None`, and the
    comparisons keep their literal thresholds (`< 0.01`, `<= base * 0.01`). */
module Discrepancy {
  import opened Wrappers
  import opened Percent

  /** ✓, ⚠️ and ❌. */
  datatype Status = Match | Warning | Mismatch

  function AbsInt(x: int): (r: nat)
    ensures r == x || r == -x
  {
    if x < 0 then -x else x
  }

  /** `a - b`, missing when either side is. */
  function Difference(a: Option<int>, b: Option<int>): (d: Option<int>)
    ensures d.Some? <==> a.Some? && b.Some?
    ensures d.Some? ==> d.value + b.value == a.value
  {
    if a.Some? && b.Some? then Some(a.value - b.value) else None
  }

  /** `(a - b) / b * 100`: NaN when a side is missing. */
  function Percentage(a: Option<int>, b: Option<int>): (p: Pct)
    ensures a.None? || b.None? ==> p.NaN?
    ensures p.Infinite? <==> a.Some? && b.Some? && b.value == 0 && a.value != 0
    ensures p.Finite? ==> a.Some? && b.Some? && p.value * (b.value as real) == ((a.value - b.value) as real) * 100.0
  {
    match Difference(a, b)
    case None => NaN
    case Some(d) => Ratio(d, b.value)
  }

  /** `np.where(|d| < 0.01, ✓, np.where(|d| <= b * 0.01, ⚠️, ❌))`: every
      comparison with NaN is false, so a row missing a side gets ❌. With whole
      counts this is ✓ for equal counts and ⚠️ for a gap of at most 1% of `b`. */
  function StatusOf(a: Option<int>, b: Option<int>): (s: Status)
    ensures s == Match <==> a.Some? && b.Some? && a.value == b.value
    ensures s == Warning <==>
      a.Some? && b.Some? && a.value != b.value && 100 * AbsInt(a.value - b.value) <= b.value
    ensures a.None? || b.None? ==> s == Mismatch
  {
    match Difference(a, b)
    case None => Mismatch
    case Some(d) =>
      if AbsReal(d as real) < 0.01 then Match
      else if AbsReal(d as real) <= (b.value as real) * 0.01 then Warning
      else Mismatch
  }

  /** `|d| > t` on a column that may hold NaN. */
  predicate Exceeds(d: Option<int>, t: real) {
    d.Some? && AbsReal(d.value as real) > t
  }

  /** With whole counts, `|d| > 0.01` and `|d| > 0` both mean "the counts differ". */
  lemma ExceedsMeansDiffers(d: Option<int>)
    ensures Exceeds(d, 0.01) <==> d.Some? && d.value != 0
    ensures Exceeds(d, 0.0) <==> d.Some? && d.value != 0
  {
  }

  /** The status and the percentage tell the same story for a positive base:
      ✓ is a 0% gap and ⚠️ a finite, non-zero gap of at most 1%. */
  lemma {:induction false} StatusAgreesWithPercentage(a: int, b: int)
    requires b > 0
    ensures StatusOf(Some(a), Some(b)) == Match <==> Percentage(Some(a), Some(b)) == Finite(0.0)
    ensures StatusOf(Some(a), Some(b)) == Warning <==>
      Percentage(Some(a), Some(b)).Finite? && Percentage(Some(a), Some(b)).value != 0.0 &&
      AbsReal(Percentage(Some(a), Some(b)).value) <= 1.0
  {
    var v := Percentage(Some(a), Some(b)).value;
    var d := a - b;
    var x := (d as real) * 100.0;
    assert AbsReal(x) == ((100 * AbsInt(d)) as real);
    ScaledBound(v, b as real, x);
  }

  /** For a positive `br`, `v * br == x` makes `v` vanish with `x` and stay
      within [-1, 1] exactly when `x` stays within [-br, br]. */
  lemma ScaledBound(v: real, br: real, x: real)
    requires br > 0.0 && v * br == x
    ensures v == 0.0 <==> x == 0.0
    ensures AbsReal(v) <= 1.0 <==> AbsReal(x) <= br
  {
    ScaleBounds(v, br);
    if -1.0 <= v <= 1.0 {
      assert AbsReal(v) <= 1.0 && -br <= x <= br;
    } else {
      assert AbsReal(v) > 1.0 && (x < -br || br < x);
    }
  }

  /** The three comparisons `ScaledBound` needs, each kept by scaling. */
  lemma ScaleBounds(v: real, br: real)
    requires br > 0.0
    ensures v <= 1.0 <==> v * br <= br
    ensures -1.0 <= v <==> -br <= v * br
    ensures v == 0.0 <==> v * br == 0.0
  {
    ScaleKeepsOrder(v, 1.0, br);
    ScaleKeepsOrder(-1.0, v, br);
    ScaleKeepsOrder(v, 0.0, br);
    ScaleKeepsOrder(0.0, v, br);
  }

  /** Multiplying by a positive number keeps the order of two reals. */
  lemma ScaleKeepsOrder(u: real, w: real, br: real)
    requires br > 0.0
    ensures u <= w <==> u * br <= w * br
  {
    if u <= w {
      assert (w - u) * br >= 0.0;
    } else {
      assert (u - w) * br > 0.0;
    }
  }

  /** A gap counted as significant (`|pct| > t` for a non-negative `t`) is a
      gap between two present, different counts. */
  lemma SignificantMeansDiffers(a: Option<int>, b: Option<int>, t: real)
    requires t >= 0.0
    requires AbsGreater(Percentage(a, b), t)
    ensures Exceeds(Difference(a, b), 0.01)
  {
  }
}
