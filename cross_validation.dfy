/** The cross-validation of the Gold aggregates against the TABNET export,
    by micro-region (`validar_por_microrregiao`) and by municipality
    (`validar_por_municipio`). Both drop the TABNET rows whose caption mentions
    a marker word, split the remaining labels into code and name, outer-join
    the two tables on the normalised name and add the discrepancy columns. */
module CrossValidation {
  import opened Wrappers
  import opened Text
  import opened Seqs
  import opened Percent
  import opened Joins
  import opened Sorting
  import opened Names
  import opened Discrepancy

  /** A Gold row: the region or municipality name and its count. */
  type GoldRow = NamedCount

  /** A TABNET row: the raw "code name" caption and its count, missing when the
      export held something that is not a number. */
  datatype TabnetRow = TabnetRow(caption: Option<String>, quantity: Option<int>)

  /** A row of `df_comparacao`. `name` is the Gold name and `code` the TABNET
      code, each missing on rows the other table alone contributed. */
  datatype Comparison = Comparison(
    name: Option<String>, key: Option<String>,
    gold: Option<int>, tabnet: Option<int>, code: Option<String>,
    diff: Option<int>, pct: Pct, status: Status)

  /** The `resultados` dictionary. */
  datatype Report = Report(
    full: seq<Comparison>, ordered: seq<Comparison>,
    goldOnly: seq<Comparison>, tabnetOnly: seq<Comparison>,
    inconsistencies: nat)

  /** The marker words of each script: a TABNET row whose caption contains one,
      in any case, is a total or a footnote and not data. */
  const RegionMarkers: seq<String> := ["Total"]
  const MunicipalityMarkers: seq<String> := ["Total", "Nota", "Fonte", "partir", "Até"]

  /** `caption.astype(str).str.contains(word, case=False)` for some word. */
  predicate Mentions(caption: Option<String>, words: seq<String>) {
    exists w :: 0 <= w < |words| && ContainsCI(CellText(caption), words[w])
  }

  /** The TABNET rows that are data. */
  function DataRows(rows: seq<TabnetRow>, words: seq<String>): (kept: seq<TabnetRow>)
    ensures forall t :: 0 <= t < |kept| ==> !Mentions(kept[t].caption, words)
    ensures forall i :: 0 <= i < |rows| && !Mentions(rows[i].caption, words) ==> rows[i] in kept
    ensures multiset(kept) <= multiset(rows)
  {
    Filter(rows, (r: TabnetRow) => !Mentions(r.caption, words))
  }

  /** TABNET rows keyed by the normalised name extracted from their caption,
      carrying their count and code. */
  function TabnetKeyed(rows: seq<TabnetRow>): (k: seq<(Option<String>, (Option<int>, Option<String>))>)
    ensures |k| == |rows|
    ensures forall i :: 0 <= i < |rows| ==>
      k[i] == (Normalize(ExtractCodeName(rows[i].caption).1), (rows[i].quantity, ExtractCodeName(rows[i].caption).0))
  {
    seq(|rows|, i requires 0 <= i < |rows| =>
      (Normalize(ExtractCodeName(rows[i].caption).1), (rows[i].quantity, ExtractCodeName(rows[i].caption).0)))
  }

  /** Every column of a comparison row that is derived from its counts. */
  predicate Derived(c: Comparison) {
    c.diff == Difference(c.gold, c.tabnet) &&
    c.pct == Percentage(c.gold, c.tabnet) &&
    c.status == StatusOf(c.gold, c.tabnet)
  }

  /** One joined row with its discrepancy columns. */
  function Compare(j: Joined<Option<String>, GoldRow, (Option<int>, Option<String>)>): (c: Comparison)
    ensures Derived(c) && c.key == j.key
    ensures c.gold.Some? <==> j.left.Some?
    ensures j.left.Some? ==> c.name == j.left.value.name && c.gold == Some(j.left.value.quantity)
    ensures j.right.Some? ==> c.tabnet == j.right.value.0 && c.code == j.right.value.1
    ensures j.right.None? ==> c.tabnet.None? && c.code.None?
  {
    var name := if j.left.Some? then j.left.value.name else None;
    var gold := if j.left.Some? then Some(j.left.value.quantity) else None;
    var tabnet := if j.right.Some? then j.right.value.0 else None;
    var code := if j.right.Some? then j.right.value.1 else None;
    Comparison(name, j.key, gold, tabnet, code,
      Difference(gold, tabnet), Percentage(gold, tabnet), StatusOf(gold, tabnet))
  }

  /** `df_comparacao`: the outer join of Gold and the TABNET data rows. */
  function Comparisons(gold: seq<GoldRow>, tabnet: seq<TabnetRow>, words: seq<String>): (full: seq<Comparison>)
    ensures forall t :: 0 <= t < |full| ==> Derived(full[t])
    ensures forall t :: 0 <= t < |full| && full[t].gold.Some? ==>
      NamedCount(full[t].name, full[t].gold.value) in gold && full[t].key == Normalize(full[t].name)
  {
    var j := OuterJoin(KeyedByName(gold), TabnetKeyed(DataRows(tabnet, words)));
    var full := seq(|j|, t requires 0 <= t < |j| => Compare(j[t]));
    assert forall t :: 0 <= t < |full| && full[t].gold.Some? ==>
      NamedCount(full[t].name, full[t].gold.value) in gold && full[t].key == Normalize(full[t].name)
    by {
      forall t | 0 <= t < |full| && full[t].gold.Some?
        ensures NamedCount(full[t].name, full[t].gold.value) in gold && full[t].key == Normalize(full[t].name)
      {
        GoldKeyedMember(gold, j[t].key, j[t].left.value);
      }
    }
    full
  }

  /** A keyed Gold row is a Gold row under its normalised name. */
  lemma GoldKeyedMember(gold: seq<GoldRow>, k: Option<String>, g: GoldRow)
    requires (k, g) in KeyedByName(gold)
    ensures g in gold && k == Normalize(g.name)
  {
    var keyed := KeyedByName(gold);
    var i :| 0 <= i < |keyed| && keyed[i] == (k, g);
    assert gold[i] == g;
  }

  /** The comparison row `c` shows the Gold row `g`. */
  predicate ShowsGold(c: Comparison, g: GoldRow) {
    c.name == g.name && c.gold == Some(g.quantity) && c.key == Normalize(g.name)
  }

  /** The comparison row `c` shows the TABNET row `row`: its count and code,
      under the normalised name taken from its caption. */
  predicate ShowsTabnet(c: Comparison, row: TabnetRow) {
    c.tabnet == row.quantity && c.code == ExtractCodeName(row.caption).0 &&
    c.key == Normalize(ExtractCodeName(row.caption).1)
  }

  /** No Gold row is lost: each one shows up with its name and count. */
  lemma GoldRowKept(gold: seq<GoldRow>, tabnet: seq<TabnetRow>, words: seq<String>, i: nat)
    requires i < |gold|
    ensures var full := Comparisons(gold, tabnet, words);
      exists t :: 0 <= t < |full| && ShowsGold(full[t], gold[i])
  {
    var l := KeyedByName(gold);
    var r := TabnetKeyed(DataRows(tabnet, words));
    OuterJoinKeepsLeft(l, r, i);
    var j := OuterJoin(l, r);
    var t :| 0 <= t < |j| && j[t].key == l[i].0 && j[t].left == Some(l[i].1);
    assert Comparisons(gold, tabnet, words)[t] == Compare(j[t]);
  }

  /** No TABNET data row is lost: each one shows up with its count and code,
      under the normalised name taken from its caption. */
  lemma TabnetRowKept(gold: seq<GoldRow>, tabnet: seq<TabnetRow>, words: seq<String>, q: nat)
    requires q < |tabnet| && !Mentions(tabnet[q].caption, words)
    ensures var full := Comparisons(gold, tabnet, words);
      exists t :: 0 <= t < |full| && ShowsTabnet(full[t], tabnet[q])
  {
    var kept := DataRows(tabnet, words);
    assert tabnet[q] in kept;
    var p :| 0 <= p < |kept| && kept[p] == tabnet[q];
    var l := KeyedByName(gold);
    var r := TabnetKeyed(kept);
    OuterJoinKeepsRight(l, r, p);
    var j := OuterJoin(l, r);
    var t :| 0 <= t < |j| && j[t].key == r[p].0 && j[t].right == Some(r[p].1);
    assert Comparisons(gold, tabnet, words)[t] == Compare(j[t]);
  }

  /** A TABNET count in the comparison comes from a data row with that key:
      total and footnote rows never reach the join. */
  lemma TabnetCountSource(gold: seq<GoldRow>, tabnet: seq<TabnetRow>, words: seq<String>, t: nat)
    requires t < |Comparisons(gold, tabnet, words)| && Comparisons(gold, tabnet, words)[t].tabnet.Some?
    ensures exists q :: 0 <= q < |tabnet| && !Mentions(tabnet[q].caption, words) && ShowsTabnet(Comparisons(gold, tabnet, words)[t], tabnet[q])
  {
    var kept := DataRows(tabnet, words);
    var l := KeyedByName(gold);
    var r := TabnetKeyed(kept);
    var j := OuterJoin(l, r);
    var c := Comparisons(gold, tabnet, words)[t];
    assert c == Compare(j[t]);
    assert (j[t].key, j[t].right.value) in r;
    var p :| 0 <= p < |r| && r[p] == (j[t].key, j[t].right.value);
    assert kept[p] in multiset(tabnet);
    var q :| 0 <= q < |tabnet| && tabnet[q] == kept[p];
  }

  predicate BothPresent(c: Comparison) {
    c.gold.Some? && c.tabnet.Some?
  }

  predicate IsMatch(c: Comparison) {
    c.status == Match
  }

  /** `diferenca.abs() > 0.01`. */
  predicate Inconsistent(c: Comparison) {
    Exceeds(c.diff, 0.01)
  }

  /** `sort_values(by=percentual_diferenca, key=abs, ascending=False)`. */
  predicate ByPct(a: Comparison, b: Comparison) {
    Before(a.pct, b.pct)
  }

  lemma ByPctPreorder()
    ensures TotalPreorder(ByPct)
  {
    forall a: Comparison, b: Comparison ensures ByPct(a, b) || ByPct(b, a) {
      BeforeTotal(a.pct, b.pct);
    }
    forall a: Comparison, b: Comparison, c: Comparison | ByPct(a, b) && ByPct(b, c) ensures ByPct(a, c) {
      BeforeTransitive(a.pct, b.pct, c.pct);
    }
  }

  /** The error `zip(*...apply(extrair_codigo_nome))` raises when it has no
      row to unpack into the `codigo` and `nome` columns. */
  const UnpackError: String := "not enough values to unpack (expected 2, got 0)"

  /** `validar_por_microrregiao` and, with its marker words, the shared part
      of `validar_por_municipio`: the unpacking of code and name fails when no
      TABNET data row is left; otherwise the report follows. */
  function Reconcile(gold: seq<GoldRow>, tabnet: seq<TabnetRow>, words: seq<String>): (r: Result<Report, String>)
    ensures r.Failure? <==> forall q :: 0 <= q < |tabnet| ==> Mentions(tabnet[q].caption, words)
    ensures r.Failure? ==> r.error == UnpackError
    ensures r.Success? ==> r.value.full == Comparisons(gold, tabnet, words)
    ensures r.Success? ==> forall t :: 0 <= t < |r.value.ordered| ==> BothPresent(r.value.ordered[t])
    ensures r.Success? ==> multiset(r.value.ordered) == multiset(Filter(r.value.full, BothPresent))
    ensures r.Success? ==> Sorted(r.value.ordered, ByPct)
    ensures r.Success? ==> forall t :: 0 <= t < |r.value.goldOnly| ==> r.value.goldOnly[t].tabnet.None?
    ensures r.Success? ==> forall t :: 0 <= t < |r.value.full| && r.value.full[t].tabnet.None? ==> r.value.full[t] in r.value.goldOnly
    ensures r.Success? ==> forall c :: multiset(r.value.goldOnly)[c] == if c.tabnet.None? then multiset(r.value.full)[c] else 0
    ensures r.Success? ==> |r.value.goldOnly| == Count(r.value.full, LacksTabnet)
    ensures r.Success? ==> forall t :: 0 <= t < |r.value.tabnetOnly| ==> r.value.tabnetOnly[t].gold.None?
    ensures r.Success? ==> forall t :: 0 <= t < |r.value.full| && r.value.full[t].gold.None? ==> r.value.full[t] in r.value.tabnetOnly
    ensures r.Success? ==> forall c :: multiset(r.value.tabnetOnly)[c] == if c.gold.None? then multiset(r.value.full)[c] else 0
    ensures r.Success? ==> |r.value.tabnetOnly| == Count(r.value.full, LacksGold)
    ensures r.Success? ==> r.value.inconsistencies == Count(r.value.ordered, Inconsistent)
    ensures r.Success? ==> r.value.inconsistencies + Count(r.value.ordered, IsMatch) == |r.value.ordered|
  {
    DataRowsEmpty(tabnet, words);
    if DataRows(tabnet, words) == [] then Failure(UnpackError)
    else
      var full := Comparisons(gold, tabnet, words);
      var valid := Filter(full, BothPresent);
      var ordered := OrderByPct(valid);
      InconsistentCount(full, valid, ordered);
      assert forall c :: multiset(Filter(full, LacksTabnet))[c] == if c.tabnet.None? then multiset(full)[c] else 0 by {
        forall c ensures multiset(Filter(full, LacksTabnet))[c] == if c.tabnet.None? then multiset(full)[c] else 0 {
          FilterCount(full, LacksTabnet, c);
        }
      }
      assert forall c :: multiset(Filter(full, LacksGold))[c] == if c.gold.None? then multiset(full)[c] else 0 by {
        forall c ensures multiset(Filter(full, LacksGold))[c] == if c.gold.None? then multiset(full)[c] else 0 {
          FilterCount(full, LacksGold, c);
        }
      }
      Success(Report(full, ordered, Filter(full, LacksTabnet), Filter(full, LacksGold), Count(full, Inconsistent)))
  }

  /** The filters leave nothing exactly when every TABNET row mentions a
      marker word; an empty export is the extreme case. */
  lemma DataRowsEmpty(tabnet: seq<TabnetRow>, words: seq<String>)
    ensures DataRows(tabnet, words) == [] <==> forall q :: 0 <= q < |tabnet| ==> Mentions(tabnet[q].caption, words)
  {
    var p := (r: TabnetRow) => !Mentions(r.caption, words);
    assert DataRows(tabnet, words) == Filter(tabnet, p);
    CountPositive(tabnet, p);
  }

  /** An export holding only its "Total" row stops the region script. */
  lemma TotalOnlyFails(gold: seq<GoldRow>, n: Option<int>)
    ensures ValidateByRegion(gold, [TabnetRow(Some("Total"), n)]) == Failure(UnpackError)
  {
    assert ContainsCI(CellText(Some("Total")), "Total") by {
      assert CellText(Some("Total")) == "Total";
      assert IsPrefix(Lower("Total"), Lower("Total"));
    }
  }

  /** `df_comparacao[df_comparacao["quantidade_tabnet"].isna()]`. */
  predicate LacksTabnet(c: Comparison) {
    c.tabnet.None?
  }

  /** `df_comparacao[df_comparacao["quantidade_gold"].isna()]`. */
  predicate LacksGold(c: Comparison) {
    c.gold.None?
  }

  /** `comparacao_ordenada`: the rows with both counts, largest gaps first. */
  function OrderByPct(valid: seq<Comparison>): (ordered: seq<Comparison>)
    requires forall t :: 0 <= t < |valid| ==> BothPresent(valid[t])
    ensures forall t :: 0 <= t < |ordered| ==> BothPresent(ordered[t])
    ensures multiset(ordered) == multiset(valid)
    ensures Sorted(ordered, ByPct)
  {
    ByPctPreorder();
    var ordered := SortBy(valid, ByPct);
    assert forall t :: 0 <= t < |ordered| ==> ordered[t] in multiset(valid);
    ordered
  }

  /** A row with a difference has both counts, and among such rows the ones
      that differ are exactly the ones not marked ✓. */
  lemma {:induction false} InconsistentCount(full: seq<Comparison>, valid: seq<Comparison>, ordered: seq<Comparison>)
    requires forall t :: 0 <= t < |full| ==> Derived(full[t])
    requires valid == Filter(full, BothPresent) && multiset(ordered) == multiset(valid)
    ensures Count(full, Inconsistent) == Count(ordered, Inconsistent)
    ensures Count(full, Inconsistent) + Count(ordered, IsMatch) == |ordered|
  {
    forall t | 0 <= t < |full| && Inconsistent(full[t]) ensures BothPresent(full[t]) {
      assert Derived(full[t]);
    }
    CountFilter(full, BothPresent, Inconsistent);
    PermutationCounts(valid, ordered);
    forall t | 0 <= t < |valid| ensures BothPresent(valid[t]) && Derived(valid[t]) {
      assert valid[t] in multiset(full);
      var k :| 0 <= k < |full| && full[k] == valid[t];
    }
    MatchOrInconsistent(valid);
  }

  lemma PermutationCounts(valid: seq<Comparison>, ordered: seq<Comparison>)
    requires multiset(ordered) == multiset(valid)
    ensures Count(valid, Inconsistent) == Count(ordered, Inconsistent)
    ensures Count(valid, IsMatch) == Count(ordered, IsMatch)
    ensures |valid| == |ordered|
  {
    CountPermutation(valid, ordered, Inconsistent);
    CountPermutation(valid, ordered, IsMatch);
    assert |ordered| == |multiset(ordered)| == |valid|;
  }

  lemma {:induction false} MatchOrInconsistent(s: seq<Comparison>)
    requires forall t :: 0 <= t < |s| ==> BothPresent(s[t]) && Derived(s[t])
    ensures Count(s, Inconsistent) + Count(s, IsMatch) == |s|
  {
    if s != [] {
      MatchOrInconsistent(s[..|s| - 1]);
      ExceedsMeansDiffers(s[|s| - 1].diff);
    }
  }

  /** Every TABNET count in a reconciliation comes from a row whose caption
      mentions none of the marker words, under the key taken from that caption. */
  lemma TabnetCountsFromData(gold: seq<GoldRow>, tabnet: seq<TabnetRow>, words: seq<String>)
    ensures var full := Comparisons(gold, tabnet, words);
      forall t :: 0 <= t < |full| && full[t].tabnet.Some? ==>
        exists q :: 0 <= q < |tabnet| && !Mentions(tabnet[q].caption, words) && ShowsTabnet(full[t], tabnet[q])
  {
    var full := Comparisons(gold, tabnet, words);
    forall t | 0 <= t < |full| && full[t].tabnet.Some?
      ensures exists q :: 0 <= q < |tabnet| && !Mentions(tabnet[q].caption, words) && ShowsTabnet(full[t], tabnet[q])
    {
      TabnetCountSource(gold, tabnet, words, t);
    }
  }

  /** `validar_por_microrregiao`: it stops when every TABNET row mentions
      "total", and otherwise no TABNET count is taken from such a row. */
  function ValidateByRegion(gold: seq<GoldRow>, tabnet: seq<TabnetRow>): (r: Result<Report, String>)
    ensures r.Failure? <==> forall q :: 0 <= q < |tabnet| ==> ContainsCI(CellText(tabnet[q].caption), "Total")
    ensures r.Failure? ==> r.error == UnpackError
    ensures r.Success? ==> forall t :: 0 <= t < |r.value.full| && r.value.full[t].tabnet.Some? ==>
      exists q :: 0 <= q < |tabnet| && !ContainsCI(CellText(tabnet[q].caption), "Total") && ShowsTabnet(r.value.full[t], tabnet[q])
  {
    TabnetCountsFromData(gold, tabnet, RegionMarkers);
    assert forall row: TabnetRow :: Mentions(row.caption, RegionMarkers) <==>
      ContainsCI(CellText(row.caption), "Total") by {
      assert RegionMarkers[0] == "Total";
    }
    if forall q :: 0 <= q < |tabnet| ==> ContainsCI(CellText(tabnet[q].caption), "Total") then
      Failure(UnpackError)
    else
      Reconcile(gold, tabnet, RegionMarkers)
  }

  /** The municipality report adds `inconsistencias_significativas`. */
  datatype MunicipalityReport = MunicipalityReport(base: Report, significant: nat)

  /** A TABNET row that `validar_por_municipio` keeps: its caption contains
      none of "total", "nota", "fonte", "partir" and "até", in any case. */
  predicate IsData(row: TabnetRow) {
    !ContainsCI(CellText(row.caption), "Total") && !ContainsCI(CellText(row.caption), "Nota") &&
    !ContainsCI(CellText(row.caption), "Fonte") && !ContainsCI(CellText(row.caption), "partir") &&
    !ContainsCI(CellText(row.caption), "Até")
  }

  /** `percentual_diferenca.abs() > 5`. */
  predicate Significant(c: Comparison) {
    AbsGreater(c.pct, 5.0)
  }

  /** `validar_por_municipio`: it stops when no TABNET row is data, and
      otherwise no TABNET count comes from a total or footnote row, and the
      significant gaps are all among the sorted rows and all counted as
      inconsistencies. */
  function ValidateByMunicipality(gold: seq<GoldRow>, tabnet: seq<TabnetRow>): (r: Result<MunicipalityReport, String>)
    ensures r.Failure? <==> forall q :: 0 <= q < |tabnet| ==> !IsData(tabnet[q])
    ensures r.Failure? ==> r.error == UnpackError
    ensures r.Success? ==> forall t :: 0 <= t < |r.value.base.full| && r.value.base.full[t].tabnet.Some? ==>
      exists q :: 0 <= q < |tabnet| && IsData(tabnet[q]) && ShowsTabnet(r.value.base.full[t], tabnet[q])
    ensures r.Success? ==> r.value.significant == Count(r.value.base.ordered, Significant)
    ensures r.Success? ==> r.value.significant <= r.value.base.inconsistencies
  {
    TabnetCountsFromData(gold, tabnet, MunicipalityMarkers);
    assert forall row: TabnetRow :: !Mentions(row.caption, MunicipalityMarkers) <==> IsData(row) by {
      assert MunicipalityMarkers[0] == "Total" && MunicipalityMarkers[1] == "Nota";
      assert MunicipalityMarkers[2] == "Fonte" && MunicipalityMarkers[3] == "partir";
      assert MunicipalityMarkers[4] == "Até";
      forall row: TabnetRow | IsData(row) ensures !Mentions(row.caption, MunicipalityMarkers) {
        assert forall w :: 0 <= w < 5 ==> !ContainsCI(CellText(row.caption), MunicipalityMarkers[w]);
      }
    }
    if forall q :: 0 <= q < |tabnet| ==> !IsData(tabnet[q]) then
      Failure(UnpackError)
    else
      var base := Reconcile(gold, tabnet, MunicipalityMarkers).value;
      var n := Count(base.full, Significant);
      SignificantCount(base.full, base.ordered);
      Success(MunicipalityReport(base, n))
  }

  lemma {:induction false} SignificantCount(full: seq<Comparison>, ordered: seq<Comparison>)
    requires forall t :: 0 <= t < |full| ==> Derived(full[t])
    requires multiset(ordered) == multiset(Filter(full, BothPresent))
    ensures Count(full, Significant) == Count(ordered, Significant)
    ensures Count(full, Significant) <= Count(ordered, Inconsistent)
  {
    var valid := Filter(full, BothPresent);
    forall t | 0 <= t < |full| && Significant(full[t]) ensures BothPresent(full[t]) && Inconsistent(full[t]) {
      SignificantMeansDiffers(full[t].gold, full[t].tabnet, 5.0);
    }
    CountFilter(full, BothPresent, Significant);
    CountPermutation(valid, ordered, Significant);
    CountMonotone(full, Significant, Inconsistent);
    CountFilter(full, BothPresent, Inconsistent);
    CountPermutation(valid, ordered, Inconsistent);
  }

  /** In the sorted rows every significant gap stands before every other row. */
  lemma SignificantFirst(ordered: seq<Comparison>, i: nat, j: nat)
    requires Sorted(ordered, ByPct) && i < j < |ordered|
    requires Significant(ordered[j])
    ensures Significant(ordered[i])
  {
    if !Significant(ordered[i]) {
      BeforeRespectsThreshold(ordered[j].pct, ordered[i].pct, 5.0);
      assert false;
    }
  }
}
