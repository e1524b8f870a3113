/** `validar_totais`: the grand totals of the Gold and TABNET tables, for the
    regional and the municipal view. A TABNET export may carry its own row
    labelled "Total"; when it does, that row's count is the TABNET total,
    otherwise the present counts are summed. */
module Totals {
  import opened Wrappers
  import opened Seqs
  import opened Percent
  import opened Discrepancy
  import opened CrossValidation

  /** `df[col].sum()` over a Gold table. */
  function GoldTotal(rows: seq<GoldRow>): int {
    Sum(seq(|rows|, i requires 0 <= i < |rows| => rows[i].quantity))
  }

  /** A Gold total splits over any cut of its table, so it does not count a
      row twice or leave one out. */
  lemma GoldTotalConcat(a: seq<GoldRow>, b: seq<GoldRow>)
    ensures GoldTotal(a + b) == GoldTotal(a) + GoldTotal(b)
  {
    var qa := seq(|a|, i requires 0 <= i < |a| => a[i].quantity);
    var qb := seq(|b|, i requires 0 <= i < |b| => b[i].quantity);
    assert seq(|a + b|, i requires 0 <= i < |a + b| => (a + b)[i].quantity) == qa + qb;
    SumConcat(qa, qb);
  }

  predicate HasQuantity(row: TabnetRow) {
    row.quantity.Some?
  }

  /** `df["Quantidade"].dropna().sum()`. */
  function PresentSum(rows: seq<TabnetRow>): int {
    if rows == [] then 0
    else
      var last := rows[|rows| - 1];
      PresentSum(rows[..|rows| - 1]) + (if last.quantity.Some? then last.quantity.value else 0)
  }

  /** The counts of the rows that have one, in order. */
  function PresentValues(rows: seq<TabnetRow>): (vs: seq<int>)
    ensures |vs| == Count(rows, HasQuantity)
  {
    var kept := Filter(rows, HasQuantity);
    seq(|kept|, i requires 0 <= i < |kept| => kept[i].quantity.value)
  }

  /** Dropping the missing counts and summing the rest is the running sum
      that skips them. */
  lemma {:induction false} PresentSumIsSumOfPresent(rows: seq<TabnetRow>)
    ensures PresentSum(rows) == Sum(PresentValues(rows))
  {
    if rows != [] {
      var init := rows[..|rows| - 1];
      var last := rows[|rows| - 1];
      PresentSumIsSumOfPresent(init);
      if last.quantity.Some? {
        assert PresentValues(rows) == PresentValues(init) + [last.quantity.value];
        SumConcat(PresentValues(init), [last.quantity.value]);
      } else {
        assert PresentValues(rows) == PresentValues(init);
      }
    }
  }

  lemma {:induction false} PresentSumConcat(a: seq<TabnetRow>, b: seq<TabnetRow>)
    ensures PresentSum(a + b) == PresentSum(a) + PresentSum(b)
  {
    if b != [] {
      assert (a + b)[..|a + b| - 1] == a + b[..|b| - 1];
      PresentSumConcat(a, b[..|b| - 1]);
    } else {
      assert a + b == a;
    }
  }

  predicate IsTotalRow(row: TabnetRow) {
    row.caption == Some("Total")
  }

  /** Position of the first row labelled exactly "Total". */
  function TotalRow(rows: seq<TabnetRow>): (r: Option<nat>)
    ensures r.None? <==> forall k :: 0 <= k < |rows| ==> !IsTotalRow(rows[k])
    ensures r.Some? ==> r.value < |rows| && IsTotalRow(rows[r.value])
    ensures r.Some? ==> forall k :: 0 <= k < r.value ==> !IsTotalRow(rows[k])
  {
    if rows == [] then None
    else if IsTotalRow(rows[0]) then Some(0)
    else match TotalRow(rows[1..])
      case None => None
      case Some(i) => Some(i + 1)
  }

  /** The TABNET total the comparison uses: the first "Total" row's count
      (missing if that cell is), or the sum of the present counts when no
      row is labelled "Total". */
  function ChosenTotal(rows: seq<TabnetRow>): (t: Option<int>)
    ensures (forall k :: 0 <= k < |rows| ==> !IsTotalRow(rows[k])) ==> t == Some(PresentSum(rows))
    ensures forall i :: 0 <= i < |rows| && IsTotalRow(rows[i]) && (forall k :: 0 <= k < i ==> !IsTotalRow(rows[k])) ==>
      t == rows[i].quantity
  {
    match TotalRow(rows)
    case None => Some(PresentSum(rows))
    case Some(i) => rows[i].quantity
  }

  /** In an export whose "Total" row states the sum of the other rows, that
      row is chosen, while summing every present count would count the
      establishments twice: the fallback sum is only right without a
      "Total" row. */
  lemma TotalRowBeatsDoubleCount(rows: seq<TabnetRow>, i: nat, q: int)
    requires i < |rows| && IsTotalRow(rows[i]) && rows[i].quantity == Some(q)
    requires forall k :: 0 <= k < |rows| && k != i ==> !IsTotalRow(rows[k])
    requires q == PresentSum(rows[..i] + rows[i + 1..])
    ensures ChosenTotal(rows) == Some(q)
    ensures PresentSum(rows) == 2 * q
  {
    assert rows == rows[..i] + [rows[i]] + rows[i + 1..];
    PresentSumConcat(rows[..i] + [rows[i]], rows[i + 1..]);
    PresentSumConcat(rows[..i], [rows[i]]);
    PresentSumConcat(rows[..i], rows[i + 1..]);
    assert PresentSum([rows[i]]) == q by {
      assert [rows[i]][..0] == [];
    }
  }

  /** `(g - t) / t * 100 if t != 0 else float('inf')`: a zero total gives
      +inf whatever the gap, and a missing total gives NaN. */
  function TotalPct(gold: int, t: Option<int>): (p: Pct)
    ensures p.NaN? <==> t.None?
    ensures p.Infinite? <==> t == Some(0)
    ensures p.Infinite? ==> p.positive
    ensures p.Finite? ==> p.value * (t.value as real) == ((gold - t.value) as real) * 100.0
  {
    match t
    case None => NaN
    case Some(v) => if v != 0 then Ratio(gold - v, v) else Infinite(true)
  }

  /** On a non-zero total the grand-total percentage is the row-level one;
      on a zero total they part ways exactly when the Gold count is not
      positive (the row rule gives NaN or -inf there, this one +inf). */
  lemma TotalPctAgainstRowPct(g: int, t: int)
    ensures t != 0 ==> TotalPct(g, Some(t)) == Percentage(Some(g), Some(t))
    ensures TotalPct(g, Some(0)) != Percentage(Some(g), Some(0)) <==> g <= 0
  {
  }

  datatype TotalsReport = TotalsReport(
    goldMicro: int, tabnetMicro: Option<int>, diffMicro: Option<int>, pctMicro: Pct,
    goldMunicipio: int, tabnetMunicipio: Option<int>, diffMunicipio: Option<int>, pctMunicipio: Pct,
    goldConsistent: bool, tabnetConsistent: bool)

  /** `validar_totais`. */
  function ValidateTotals(
    goldMicro: seq<GoldRow>, tabnetMicro: seq<TabnetRow>,
    goldMunicipio: seq<GoldRow>, tabnetMunicipio: seq<TabnetRow>): (r: TotalsReport)
    ensures r.goldMicro == GoldTotal(goldMicro) && r.goldMunicipio == GoldTotal(goldMunicipio)
    ensures r.tabnetMicro == ChosenTotal(tabnetMicro) && r.tabnetMunicipio == ChosenTotal(tabnetMunicipio)
    ensures r.pctMicro == TotalPct(r.goldMicro, r.tabnetMicro) && r.pctMunicipio == TotalPct(r.goldMunicipio, r.tabnetMunicipio)
    ensures r.diffMicro.Some? <==> r.tabnetMicro.Some?
    ensures r.diffMicro.Some? ==> r.diffMicro.value + r.tabnetMicro.value == r.goldMicro
    ensures r.diffMunicipio.Some? <==> r.tabnetMunicipio.Some?
    ensures r.diffMunicipio.Some? ==> r.diffMunicipio.value + r.tabnetMunicipio.value == r.goldMunicipio
    ensures r.pctMicro.Infinite? <==> r.tabnetMicro == Some(0)
    ensures r.pctMunicipio.Infinite? <==> r.tabnetMunicipio == Some(0)
    ensures r.goldConsistent <==> r.goldMicro == r.goldMunicipio
    ensures r.tabnetConsistent <==> r.tabnetMicro.Some? && r.tabnetMicro == r.tabnetMunicipio
  {
    var gMicro := GoldTotal(goldMicro);
    var gMunicipio := GoldTotal(goldMunicipio);
    var tMicro := ChosenTotal(tabnetMicro);
    var tMunicipio := ChosenTotal(tabnetMunicipio);
    TotalsReport(
      gMicro, tMicro, Difference(Some(gMicro), tMicro), TotalPct(gMicro, tMicro),
      gMunicipio, tMunicipio, Difference(Some(gMunicipio), tMunicipio), TotalPct(gMunicipio, tMunicipio),
      gMicro == gMunicipio,
      tMicro.Some? && tMunicipio.Some? && tMicro.value == tMunicipio.value)
  }
}
