/** `estimar_estoque_trabalhadores_formatado`: the workforce stock per year.
    RAIS gives the observed stock of 2002..2022, Novo CAGED the yearly
    balance of admissions and dismissals, and the stocks of 2023 and 2024
    are estimated by carrying the 2022 stock forward with those balances. */
module WorkforceStock {
  import opened Wrappers
  import opened Seqs
  import opened Grouping
  import opened Sorting

  const FirstYear: int := 2002
  const LastObserved: int := 2022

  /** `origem do dado`. */
  datatype Origin = Observed | Estimate

  /** One row of `data_final`. */
  datatype StockRow = StockRow(year: int, origin: Origin, quantity: int)

  /** A RAIS row: `dt_ano`, `nu_quantidade`. */
  datatype RaisRow = RaisRow(year: int, quantity: int)

  /** A Novo CAGED row: `dt_ano`, `nu_admitidos`, `nu_desligados`. */
  datatype CagedRow = CagedRow(year: int, admitted: int, dismissed: int)

  function RaisPairs(rais: seq<RaisRow>): (s: seq<(int, int)>)
    ensures |s| == |rais|
    ensures forall i :: 0 <= i < |rais| ==> s[i] == (rais[i].year, rais[i].quantity)
  {
    seq(|rais|, i requires 0 <= i < |rais| => (rais[i].year, rais[i].quantity))
  }

  /** `saldo = nu_admitidos - nu_desligados`, keyed by year. */
  function BalancePairs(caged: seq<CagedRow>): (s: seq<(int, int)>)
    ensures |s| == |caged|
    ensures forall i :: 0 <= i < |caged| ==> s[i] == (caged[i].year, caged[i].admitted - caged[i].dismissed)
  {
    seq(|caged|, i requires 0 <= i < |caged| => (caged[i].year, caged[i].admitted - caged[i].dismissed))
  }

  predicate Observable(row: (int, int)) {
    FirstYear <= row.0 <= LastObserved
  }

  /** `df_rais_agg`: the yearly sums, restricted to 2002..2022. */
  function RaisTotals(rais: seq<RaisRow>): seq<(int, int)> {
    Filter(GroupSum(RaisPairs(rais)), Observable)
  }

  /** `row["nu_quantidade"].values[0]` for the first row of `year`, or
      nothing when `row.empty`. */
  function FirstValue(table: seq<(int, int)>, year: int): (r: Option<int>)
    ensures r.None? <==> forall i :: 0 <= i < |table| ==> table[i].0 != year
    ensures r.Some? ==> exists i :: 0 <= i < |table| && table[i] == (year, r.value)
  {
    if table == [] then None
    else if table[0].0 == year then Some(table[0].1)
    else
      var r := FirstValue(table[1..], year);
      assert forall i :: 1 <= i < |table| ==> table[i] == table[1..][i - 1];
      r
  }

  /** The quantity the loop writes for `year`, 0 when RAIS has no row. */
  function ObservedQuantity(totals: seq<(int, int)>, year: int): int {
    match FirstValue(totals, year)
    case None => 0
    case Some(v) => v
  }

  /** For every year of 2002..2022 the loop's quantity, with its default of
      0, is exactly the sum of that year's RAIS rows. */
  lemma ObservedIsYearSum(rais: seq<RaisRow>, year: int)
    requires FirstYear <= year <= LastObserved
    ensures ObservedQuantity(RaisTotals(rais), year) == SumOf(RaisPairs(rais), year)
  {
    var s := RaisPairs(rais);
    var g := GroupSum(s);
    var totals := RaisTotals(rais);
    var found := FirstValue(totals, year);
    if found.Some? {
      var i :| 0 <= i < |totals| && totals[i] == (year, found.value);
      assert totals[i] in multiset(g);
      GroupedRowIsSum(s, totals[i]);
    } else {
      forall t | 0 <= t < |g| ensures g[t].0 != year {
        assert Observable(g[t]) ==> g[t] in totals;
      }
      SumOfAbsent(g, year);
      SumOfGrouped(s, year);
    }
  }

  /** `df_caged_agg.loc[dt_ano == year, "saldo"].sum()`. */
  function Balance(caged: seq<CagedRow>, year: int): int {
    SumOf(GroupSum(BalancePairs(caged)), year)
  }

  /** The balance the estimate adds is the year's admissions minus its
      dismissals, summed over the CAGED rows, and 0 for a year without rows. */
  lemma BalanceIsYearSum(caged: seq<CagedRow>, year: int)
    ensures Balance(caged, year) == SumOf(BalancePairs(caged), year)
    ensures (forall i :: 0 <= i < |caged| ==> caged[i].year != year) ==> Balance(caged, year) == 0
  {
    SumOfGrouped(BalancePairs(caged), year);
    if forall i :: 0 <= i < |caged| ==> caged[i].year != year {
      SumOfAbsent(BalancePairs(caged), year);
    }
  }

  /** The first `n` rows the loop appends, one per year from 2002. */
  function ObservedRows(totals: seq<(int, int)>, n: nat): (rows: seq<StockRow>)
    ensures |rows| == n
    ensures forall k :: 0 <= k < n ==> rows[k].year == FirstYear + k && rows[k].origin == Observed
  {
    seq(n, k requires 0 <= k < n => StockRow(FirstYear + k, Observed, ObservedQuantity(totals, FirstYear + k)))
  }

  /** Row `i` is the first row of `year`. */
  predicate FirstOfYear(data: seq<StockRow>, i: nat, year: int)
    requires i < |data|
  {
    data[i].year == year && forall j :: 0 <= j < i ==> data[j].year != year
  }

  /** `next((item["quantidade"] for item in data if item["dt_ano"] == year), 0)`. */
  function QuantityOf(data: seq<StockRow>, year: int): (q: int)
    ensures forall i :: 0 <= i < |data| && FirstOfYear(data, i, year) ==> q == data[i].quantity
    ensures (forall i :: 0 <= i < |data| ==> data[i].year != year) ==> q == 0
  {
    if data == [] then 0
    else if data[0].year == year then data[0].quantity
    else
      assert forall i :: 1 <= i < |data| ==> data[i] == data[1..][i - 1];
      QuantityOf(data[1..], year)
  }

  /** `data_final` before the sort: the observed years, then the two
      estimates, from the RAIS totals and the two CAGED balances. */
  function Ascending(totals: seq<(int, int)>, balance2023: int, balance2024: int): (rows: seq<StockRow>) {
    var observed := ObservedRows(totals, 21);
    var stock2023 := QuantityOf(observed, 2022) + balance2023;
    observed + [StockRow(2023, Estimate, stock2023), StockRow(2024, Estimate, stock2023 + balance2024)]
  }

  /** `sort_values("dt_ano", ascending=False)`: a row may stand before
      another when its year is not smaller. */
  predicate LaterOrSame(a: StockRow, b: StockRow) {
    a.year >= b.year
  }

  lemma LaterOrSameIsPreorder()
    ensures TotalPreorder(LaterOrSame)
  {
  }

  /** `data_final` sorted by year, latest first. */
  function Descending(totals: seq<(int, int)>, balance2023: int, balance2024: int): (t: seq<StockRow>)
    ensures Sorted(t, LaterOrSame)
    ensures multiset(t) == multiset(Ascending(totals, balance2023, balance2024))
  {
    LaterOrSameIsPreorder();
    SortBy(Ascending(totals, balance2023, balance2024), LaterOrSame)
  }

  /** `df_final`. */
  function StockTable(rais: seq<RaisRow>, caged: seq<CagedRow>): seq<StockRow> {
    Descending(RaisTotals(rais), Balance(caged, 2023), Balance(caged, 2024))
  }

  /** Each pass of the loop appends the next year. */
  lemma ObservedRowsSnoc(totals: seq<(int, int)>, n: nat)
    ensures ObservedRows(totals, n + 1) ==
      ObservedRows(totals, n) + [StockRow(FirstYear + n, Observed, ObservedQuantity(totals, FirstYear + n))]
  {
  }

  /** The loop over 2002..2022 and the two appends. */
  method BuildData(totals: seq<(int, int)>, balance2023: int, balance2024: int) returns (data: seq<StockRow>)
    ensures data == Ascending(totals, balance2023, balance2024)
  {
    data := [];
    var year := FirstYear;
    while year < LastObserved + 1
      invariant FirstYear <= year <= LastObserved + 1
      invariant data == ObservedRows(totals, year - FirstYear)
    {
      ObservedRowsSnoc(totals, year - FirstYear);
      data := data + [StockRow(year, Observed, ObservedQuantity(totals, year))];
      year := year + 1;
    }
    var stock2022 := FindQuantity(data, 2022);
    var stock2023 := stock2022 + balance2023;
    var stock2024 := stock2023 + balance2024;
    data := data + [StockRow(2023, Estimate, stock2023)];
    data := data + [StockRow(2024, Estimate, stock2024)];
  }

  /** The script: aggregate both sources, build `data_final`, then sort it
      by year, latest first. */
  method EstimateStock(rais: seq<RaisRow>, caged: seq<CagedRow>) returns (table: seq<StockRow>)
    ensures table == StockTable(rais, caged)
  {
    var data := BuildData(RaisTotals(rais), Balance(caged, 2023), Balance(caged, 2024));
    LaterOrSameIsPreorder();
    table := SortBy(data, LaterOrSame);
  }

  /** The generator expression that finds the 2022 stock. */
  method FindQuantity(data: seq<StockRow>, year: int) returns (q: int)
    ensures q == QuantityOf(data, year)
  {
    var i := 0;
    while i < |data|
      invariant 0 <= i <= |data|
      invariant QuantityOf(data[i..], year) == QuantityOf(data, year)
    {
      if data[i].year == year {
        return data[i].quantity;
      }
      assert data[i..][1..] == data[i + 1..];
      i := i + 1;
    }
    return 0;
  }

  /** The years of `data_final` are 2002..2024, each once, in increasing
      order, and the stock carried into 2023 is the 2022 row's. */
  lemma AscendingShape(totals: seq<(int, int)>, b1: int, b2: int)
    ensures var a := Ascending(totals, b1, b2);
      |a| == 23 && forall k :: 0 <= k < 23 ==> a[k].year == FirstYear + k && (a[k].origin == Estimate <==> k >= 21)
    ensures var a := Ascending(totals, b1, b2);
      a[21].quantity == a[20].quantity + b1 && a[22].quantity == a[21].quantity + b2
  {
    var observed := ObservedRows(totals, 21);
    var a := Ascending(totals, b1, b2);
    assert a[..21] == observed;
    forall k | 0 <= k < 21 ensures a[k] == observed[k] {
    }
    assert FirstOfYear(observed, 20, 2022);
  }

  /** Years are distinct, so the descending sort has one outcome: the
      ascending list reversed. */
  lemma {:induction false} SortIsReversal(totals: seq<(int, int)>, b1: int, b2: int, k: nat)
    requires k < 23
    ensures |Descending(totals, b1, b2)| == 23
    ensures Descending(totals, b1, b2)[k] == Ascending(totals, b1, b2)[22 - k]
  {
    AscendingShape(totals, b1, b2);
    var a := Ascending(totals, b1, b2);
    assert forall i, j :: 0 <= i < j < |a| ==> a[i].year < a[j].year;
    ReversedBySort(a, Descending(totals, b1, b2), k);
  }

  /** Rows with increasing years, sorted latest first, come out reversed. */
  lemma ReversedBySort(a: seq<StockRow>, t: seq<StockRow>, k: nat)
    requires forall i, j :: 0 <= i < j < |a| ==> a[i].year < a[j].year
    requires Sorted(t, LaterOrSame) && multiset(t) == multiset(a) && k < |a|
    ensures |t| == |a| && t[k] == a[|a| - 1 - k]
  {
    var n := |a|;
    var r := seq(n, i requires 0 <= i < n => a[n - 1 - i]);
    assert Sorted(r, LaterOrSame);
    ReversedPermutation(a, r);
    LaterOrSameIsPreorder();
    assert |t| == |multiset(t)| == |multiset(a)| == n;
    SortedPermutationsAgree(t, r, LaterOrSame, k);
    assert t[k] in multiset(a);
    var j :| 0 <= j < n && a[j] == t[k];
  }

  lemma {:induction false} ReversedPermutation<T>(a: seq<T>, r: seq<T>)
    requires |r| == |a| && forall i :: 0 <= i < |a| ==> r[i] == a[|a| - 1 - i]
    ensures multiset(r) == multiset(a)
  {
    if a != [] {
      var a' := a[1..];
      var r' := r[..|r| - 1];
      ReversedPermutation(a', r');
      assert a == [a[0]] + a';
      assert r == r' + [a[0]];
    }
  }

  /** `df_final`: 23 rows with strictly decreasing years from 2024 to 2002;
      only 2023 and 2024 are estimates; each estimate is the previous year's
      stock plus that year's balance. */
  lemma DescendingShape(totals: seq<(int, int)>, b1: int, b2: int)
    ensures var t := Descending(totals, b1, b2);
      |t| == 23 && forall k :: 0 <= k < 23 ==> t[k].year == 2024 - k && (t[k].origin == Estimate <==> k < 2)
    ensures var t := Descending(totals, b1, b2);
      t[1].quantity == t[2].quantity + b1 && t[0].quantity == t[1].quantity + b2
    ensures var t := Descending(totals, b1, b2);
      forall k :: 2 <= k < 23 ==> t[k].quantity == ObservedQuantity(totals, t[k].year)
  {
    var t := Descending(totals, b1, b2);
    var a := Ascending(totals, b1, b2);
    AscendingShape(totals, b1, b2);
    forall k | 0 <= k < 23 ensures t[k] == a[22 - k] {
      SortIsReversal(totals, b1, b2, k);
    }
    SortIsReversal(totals, b1, b2, 0);
  }

  /** The final table in terms of the raw rows: every observed quantity is
      that year's RAIS sum (0 for a year without data) and the estimates
      add the CAGED balances of 2023 and 2024. */
  lemma StockTableContents(rais: seq<RaisRow>, caged: seq<CagedRow>)
    ensures var t := StockTable(rais, caged);
      |t| == 23 && forall k :: 0 <= k < 23 ==> t[k].year == 2024 - k && (t[k].origin == Estimate <==> k < 2)
    ensures var t := StockTable(rais, caged);
      forall k :: 2 <= k < 23 ==> t[k].quantity == SumOf(RaisPairs(rais), t[k].year)
    ensures var t := StockTable(rais, caged);
      t[1].quantity == t[2].quantity + SumOf(BalancePairs(caged), 2023) &&
      t[0].quantity == t[1].quantity + SumOf(BalancePairs(caged), 2024)
  {
    var totals, b1, b2 := RaisTotals(rais), Balance(caged, 2023), Balance(caged, 2024);
    var t := StockTable(rais, caged);
    assert t == Descending(totals, b1, b2);
    DescendingShape(totals, b1, b2);
    BalanceIsYearSum(caged, 2023);
    BalanceIsYearSum(caged, 2024);
    forall k | 2 <= k < 23 ensures t[k].quantity == SumOf(RaisPairs(rais), t[k].year) {
      ObservedIsYearSum(rais, t[k].year);
    }
  }
}
