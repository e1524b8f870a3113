/** `gerar_demanda2`: Santa Catarina's 2024 pork exports. The export rows are
    merged with the NCM nomenclature on the 8-digit code; the summary sums
    the FOB value of each of the four pork headings (0203, 0206, 0209, 0210)
    and closes with their total; the detail lists every 8-digit code of
    those headings whose summed value is positive, in code order, and closes
    with the total of the listed codes. */
module PorkExports {
  import opened Wrappers
  import opened Text
  import opened Seqs
  import opened Grouping
  import opened Sorting
  import Joins

  /** A row of `demanda2.csv`, every column read as text. */
  datatype Export = Export(year: String, ncm: String, uf: String, fob: String)

  /** A row of `NCM.csv`: the code and `NO_NCM_POR`. */
  datatype Nomenclature = Nomenclature(ncm: String, description: Option<String>)

  /** The export columns after `to_numeric(errors="coerce")`. */
  datatype Shipment = Shipment(year: Option<int>, uf: String, fob: Option<int>)

  /** A merged row: code, export columns, description. */
  type Row = (String, Shipment, Option<String>)

  datatype SummaryRow = SummaryRow(heading: String, pork: String, fob: int)

  datatype DetailRow = DetailRow(code: String, description: Option<String>, pork: String, fob: int)

  datatype Report = Report(summary: seq<SummaryRow>, detail: seq<DetailRow>)

  const CodeWidth: nat := 8

  /** The keys of `resumo_map`, in their order. */
  const Prefixes: seq<String> := ["0203", "0206", "0209", "0210"]

  /** The values of `resumo_map`, in the same order. */
  const Labels: seq<String> := [
    "CARNES DE ANIMAIS DA ESPÉCIE SUÍNA, FRESCAS, REFRIGERADAS OU CONGELADAS",
    "MIUDEZAS COMESTÍVEIS (BOVINA, SUÍNA, ETC.), FRESCAS/REFRIGERADAS/CONGELADAS",
    "TOUCINHO, GORDURAS DE PORCO E DE AVES, NÃO FUNDIDAS, ETC.",
    "CARNES E MIUDEZAS, SALGADAS/DEFUMADAS; FARINHAS E PÓS COMESTÍVEIS"
  ]

  // ---------------------------------------------------------------------
  // Conversion, merge and selection

  /** `CO_ANO` and `VL_FOB` through `to_numeric`, `CO_NCM` through `zfill(8)`. */
  function Converted(e: Export): (x: (String, Shipment))
    ensures |x.0| >= CodeWidth
  {
    (ZFill(e.ncm, CodeWidth), Shipment(ParseInt(e.year), e.uf, ParseInt(e.fob)))
  }

  function Lefts(exports: seq<Export>): (l: seq<(String, Shipment)>)
    ensures |l| == |exports|
    ensures forall i :: 0 <= i < |exports| ==> l[i] == Converted(exports[i])
  {
    seq(|exports|, i requires 0 <= i < |exports| => Converted(exports[i]))
  }

  function Rights(ncms: seq<Nomenclature>): (r: seq<(String, Option<String>)>)
    ensures |r| == |ncms|
    ensures forall q :: 0 <= q < |ncms| ==> r[q] == (ZFill(ncms[q].ncm, CodeWidth), ncms[q].description)
  {
    seq(|ncms|, q requires 0 <= q < |ncms| => (ZFill(ncms[q].ncm, CodeWidth), ncms[q].description))
  }

  /** `(CO_ANO == 2024) & (SG_UF_NCM == "SC")`; a year that did not parse is
      not 2024. */
  predicate In2024SC(r: Row) {
    r.1.year == Some(2024) && r.1.uf == "SC"
  }

  /** `df_merged` after the merge and the filter. */
  function Selected(exports: seq<Export>, ncms: seq<Nomenclature>): (rows: seq<Row>)
    ensures forall t :: 0 <= t < |rows| ==> In2024SC(rows[t])
  {
    Filter(Joins.InnerJoin(Lefts(exports), Rights(ncms)), In2024SC)
  }

  /** Every selected row is an export of SC in 2024 paired with a
      nomenclature row of the same padded code. */
  lemma SelectedSound(exports: seq<Export>, ncms: seq<Nomenclature>, t: nat)
    requires t < |Selected(exports, ncms)|
    ensures var r := Selected(exports, ncms)[t];
      (r.0, r.1) in Lefts(exports) && (r.0, r.2) in Rights(ncms) && |r.0| >= CodeWidth
  {
    var l, r := Lefts(exports), Rights(ncms);
    var x := Selected(exports, ncms)[t];
    FilteredJoinRow(l, r, In2024SC, t);
    var i :| 0 <= i < |l| && l[i] == (x.0, x.1);
  }

  /** A row kept from an inner join pairs a left row and a right row. */
  lemma FilteredJoinRow<K, A, B>(l: seq<(K, A)>, r: seq<(K, B)>, p: ((K, A, B)) -> bool, t: nat)
    requires t < |Filter(Joins.InnerJoin(l, r), p)|
    ensures var x := Filter(Joins.InnerJoin(l, r), p)[t];
      (x.0, x.1) in l && (x.0, x.2) in r
  {
    var j := Joins.InnerJoin(l, r);
    var rows := Filter(j, p);
    assert rows[t] in multiset(rows);
    assert rows[t] in multiset(j);
    var u :| 0 <= u < |j| && j[u] == rows[t];
  }

  /** Every export of SC in 2024 is selected with each nomenclature row of
      the same padded code. */
  lemma SelectedComplete(exports: seq<Export>, ncms: seq<Nomenclature>, i: nat, q: nat)
    requires i < |exports| && q < |ncms|
    requires ZFill(exports[i].ncm, CodeWidth) == ZFill(ncms[q].ncm, CodeWidth)
    requires ParseInt(exports[i].year) == Some(2024) && exports[i].uf == "SC"
    ensures (Converted(exports[i]).0, Converted(exports[i]).1, ncms[q].description) in Selected(exports, ncms)
  {
    var l, r := Lefts(exports), Rights(ncms);
    Joins.InnerJoinComplete(l, r, i, q);
    var j := Joins.InnerJoin(l, r);
    var row := (l[i].0, l[i].1, r[q].1);
    var u :| 0 <= u < |j| && j[u] == row;
    assert In2024SC(j[u]);
  }

  /** How often a row is selected: once for every pairing of an export
      with that code and those values with a nomenclature row with that code
      and that description, when the export is of SC in 2024; so a code that
      `NCM.csv` lists twice selects each of its exports twice. */
  lemma {:induction false} SelectedCount(exports: seq<Export>, ncms: seq<Nomenclature>, row: Row)
    ensures multiset(Selected(exports, ncms))[row] ==
      if In2024SC(row) then Joins.PairCount(Lefts(exports), Rights(ncms), row.0, row.1, row.2) else 0
  {
    FilteredJoinCount(Lefts(exports), Rights(ncms), In2024SC, row.0, row.1, row.2);
  }

  lemma FilteredJoinCount<K, A, B>(l: seq<(K, A)>, r: seq<(K, B)>, p: ((K, A, B)) -> bool, k: K, a: A, b: B)
    ensures multiset(Filter(Joins.InnerJoin(l, r), p))[(k, a, b)] == if p((k, a, b)) then Joins.PairCount(l, r, k, a, b) else 0
  {
    Joins.InnerJoinCount(l, r, k, a, b);
    FilterCount(Joins.InnerJoin(l, r), p, (k, a, b));
  }

  /** Every selected code is padded. */
  lemma SelectedPadded(exports: seq<Export>, ncms: seq<Nomenclature>)
    ensures forall t :: 0 <= t < |Selected(exports, ncms)| ==> |Selected(exports, ncms)[t].0| >= CodeWidth
  {
    forall t | 0 <= t < |Selected(exports, ncms)| ensures |Selected(exports, ncms)[t].0| >= CodeWidth {
      SelectedSound(exports, ncms, t);
    }
  }

  // ---------------------------------------------------------------------
  // Summary (`ABA RESUMO`)

  /** A missing FOB value is skipped by `sum`, which is adding 0. */
  function Fob(r: Row): int {
    if r.1.fob.Some? then r.1.fob.value else 0
  }

  /** `df_merged.loc[df_merged["CO_NCM"].str.startswith(p), "VL_FOB"].sum()`. */
  function StartingSum(rows: seq<Row>, p: String): int {
    if rows == [] then 0
    else StartingSum(rows[..|rows| - 1], p) + (if IsPrefix(p, rows[|rows| - 1].0) then Fob(rows[|rows| - 1]) else 0)
  }

  /** The summary row of the `i`-th heading. */
  function PrefixLine(rows: seq<Row>, i: nat): SummaryRow
    requires i < |Prefixes|
  {
    SummaryRow(Labels[i], "Sim", StartingSum(rows, Prefixes[i]))
  }

  function FobTotal(lines: seq<SummaryRow>): int {
    if lines == [] then 0 else FobTotal(lines[..|lines| - 1]) + lines[|lines| - 1].fob
  }

  /** `df_resumo`: one row per heading, in the order of `resumo_map`, then the
      Total row holding their sum. */
  function Summary(rows: seq<Row>): (t: seq<SummaryRow>)
    ensures |t| == |Prefixes| + 1
    ensures forall i :: 0 <= i < |Prefixes| ==>
      t[i].heading == Labels[i] && t[i].pork == "Sim" && t[i].fob == StartingSum(rows, Prefixes[i])
    ensures t[4].heading == "Total" && t[4].pork == "-"
    ensures t[4].fob == t[0].fob + t[1].fob + t[2].fob + t[3].fob
  {
    var lines := PrefixLines(rows);
    FobTotalOfFour(lines);
    lines + [SummaryRow("Total", "-", FobTotal(lines))]
  }

  /** The four heading rows. */
  function PrefixLines(rows: seq<Row>): (lines: seq<SummaryRow>)
    ensures |lines| == |Prefixes|
    ensures forall i :: 0 <= i < |Prefixes| ==> lines[i] == PrefixLine(rows, i)
  {
    seq(|Prefixes|, i requires 0 <= i < |Prefixes| => PrefixLine(rows, i))
  }

  lemma FobTotalOfFour(lines: seq<SummaryRow>)
    requires |lines| == 4
    ensures FobTotal(lines) == lines[0].fob + lines[1].fob + lines[2].fob + lines[3].fob
  {
    var one, two, three := lines[..1], lines[..2], lines[..3];
    assert one[..0] == [] && two[..1] == one && three[..2] == two && lines[..3] == three;
    assert FobTotal(one) == lines[0].fob;
    assert FobTotal(two) == FobTotal(one) + lines[1].fob;
    assert FobTotal(three) == FobTotal(two) + lines[2].fob;
  }

  /** The loop over `prefixos_resumo`: each heading's sum is appended and
      added to `soma_resumo`, then the Total row is appended. */
  method BuildSummary(rows: seq<Row>) returns (data: seq<SummaryRow>)
    ensures data == Summary(rows)
  {
    data := [];
    var total := 0;
    var i := 0;
    while i < |Prefixes|
      invariant 0 <= i <= |Prefixes|
      invariant |data| == i
      invariant forall j :: 0 <= j < i ==> data[j] == PrefixLine(rows, j)
      invariant total == FobTotal(data)
    {
      var value := StartingSum(rows, Prefixes[i]);
      total := total + value;
      assert (data + [PrefixLine(rows, i)])[..i] == data;
      data := data + [PrefixLine(rows, i)];
      i := i + 1;
    }
    assert data == PrefixLines(rows);
    data := data + [SummaryRow("Total", "-", total)];
  }

  // ---------------------------------------------------------------------
  // Detail (`ABA DETALHADO`)

  /** `CO_NCM.str[:4]`. */
  function Head(code: String): (h: String)
    ensures |code| >= 4 ==> |h| == 4 && IsPrefix(h, code)
  {
    if |code| >= 4 then code[..4] else code
  }

  /** For codes of at least four characters, `startswith` a heading and
      `str[:4]` equal to it pick the same rows. */
  lemma StartsWithIsHead(code: String, p: String)
    requires |code| >= 4 && |p| == 4
    ensures IsPrefix(p, code) <==> Head(code) == p
  {
  }

  /** `str[:4].isin(prefixos_resumo)`. */
  predicate InPrefixes(r: Row) {
    Head(r.0) in Prefixes
  }

  /** The (code, value) pairs that `groupby("CO_NCM")` sums. */
  function CodePairs(rows: seq<Row>): (s: seq<(String, int)>)
    ensures |s| == |rows|
    ensures forall t :: 0 <= t < |rows| ==> s[t] == (rows[t].0, Fob(rows[t]))
  {
    seq(|rows|, t requires 0 <= t < |rows| => (rows[t].0, Fob(rows[t])))
  }

  /** The (heading, value) pairs of the rows. */
  function HeadPairs(rows: seq<Row>): (s: seq<(String, int)>)
    ensures |s| == |rows|
    ensures forall t :: 0 <= t < |rows| ==> s[t] == (Head(rows[t].0), Fob(rows[t]))
  {
    seq(|rows|, t requires 0 <= t < |rows| => (Head(rows[t].0), Fob(rows[t])))
  }

  /** `agg("first")` on `NO_NCM_POR`: the first description of the code that
      is present, missing when none is. */
  function FirstDescription(rows: seq<Row>, code: String): Option<String> {
    if rows == [] then None
    else if rows[0].0 == code && rows[0].2.Some? then rows[0].2
    else FirstDescription(rows[1..], code)
  }

  /** The description picked is that of the code's first row that has one,
      and it is missing only when no row of the code has one. */
  lemma {:induction false} FirstDescriptionIsFirst(rows: seq<Row>, code: String)
    ensures var d := FirstDescription(rows, code);
      (d.None? <==> forall t :: 0 <= t < |rows| && rows[t].0 == code ==> rows[t].2.None?) &&
      (d.Some? ==> exists t :: (0 <= t < |rows| && rows[t].0 == code && rows[t].2 == d &&
         forall u :: 0 <= u < t && rows[u].0 == code ==> rows[u].2.None?))
  {
    if rows != [] && !(rows[0].0 == code && rows[0].2.Some?) {
      FirstDescriptionIsFirst(rows[1..], code);
      assert forall t :: 1 <= t < |rows| ==> rows[t] == rows[1..][t - 1];
      var d := FirstDescription(rows, code);
      if d.Some? {
        var t :| 0 <= t < |rows[1..]| && rows[1..][t].0 == code && rows[1..][t].2 == d &&
          forall u :: 0 <= u < t && rows[1..][u].0 == code ==> rows[1..][u].2.None?;
        assert rows[t + 1].0 == code && rows[t + 1].2 == d;
      }
    }
  }

  predicate PositiveGroup(g: (String, int)) {
    g.1 > 0
  }

  predicate NonPositiveGroup(g: (String, int)) {
    g.1 <= 0
  }

  /** `sort_values("CO_NCM")`: code order. */
  predicate ByCode(a: (String, int), b: (String, int)) {
    !LexLess(b.0, a.0)
  }

  lemma ByCodeIsPreorder()
    ensures TotalPreorder(ByCode)
  {
    forall a: (String, int), b: (String, int) ensures ByCode(a, b) || ByCode(b, a) {
      if a.0 != b.0 {
        LexTotal(a.0, b.0);
        if LexLess(a.0, b.0) { LexAsymmetric(a.0, b.0); } else { LexAsymmetric(b.0, a.0); }
      } else {
        LexIrreflexive(a.0);
      }
    }
    forall a: (String, int), b: (String, int), c: (String, int) | ByCode(a, b) && ByCode(b, c)
      ensures ByCode(a, c)
    {
      if LexLess(c.0, a.0) {
        if a.0 == b.0 {
        } else {
          LexTotal(a.0, b.0);
          if LexLess(c.0, b.0) {
          } else if b.0 == c.0 {
          } else {
            LexTotal(b.0, c.0);
            LexTransitive(c.0, a.0, b.0);
          }
        }
      }
    }
  }

  /** The rows of the four headings (`df_filtrado`). */
  function Kept(rows: seq<Row>): (kept: seq<Row>)
  {
    Filter(rows, InPrefixes)
  }

  /** The groups with a positive sum, in code order. */
  function SortedGroups(kept: seq<Row>): (groups: seq<(String, int)>)
    ensures multiset(groups) == multiset(Filter(GroupSum(CodePairs(kept)), PositiveGroup))
    ensures forall i, j :: 0 <= i < j < |groups| ==> !LexLess(groups[j].0, groups[i].0)
  {
    ByCodeIsPreorder();
    SortBy(Filter(GroupSum(CodePairs(kept)), PositiveGroup), ByCode)
  }

  /** A listed code: its first description, "Sim" and its summed value. */
  function Line(kept: seq<Row>, g: (String, int)): DetailRow {
    DetailRow(g.0, FirstDescription(kept, g.0), "Sim", g.1)
  }

  function LinesOf(kept: seq<Row>, groups: seq<(String, int)>): (lines: seq<DetailRow>)
    ensures |lines| == |groups|
    ensures forall i :: 0 <= i < |groups| ==> lines[i] == Line(kept, groups[i])
  {
    seq(|groups|, i requires 0 <= i < |groups| => Line(kept, groups[i]))
  }

  /** The listed codes of `df_detalhe`, before the Total row. */
  function DetailLines(rows: seq<Row>): seq<DetailRow> {
    LinesOf(Kept(rows), SortedGroups(Kept(rows)))
  }

  function DetailFob(lines: seq<DetailRow>): int {
    if lines == [] then 0 else DetailFob(lines[..|lines| - 1]) + lines[|lines| - 1].fob
  }

  /** `df_detalhe` with its Total row: the Total row comes last and holds the
      sum of the listed codes. */
  function Detail(rows: seq<Row>): (t: seq<DetailRow>)
    ensures |t| >= 1 && t[..|t| - 1] == DetailLines(rows)
    ensures t[|t| - 1] == DetailRow("Total", Some(""), "-", DetailFob(t[..|t| - 1]))
  {
    var lines := DetailLines(rows);
    assert (lines + [DetailRow("Total", Some(""), "-", DetailFob(lines))])[..|lines|] == lines;
    lines + [DetailRow("Total", Some(""), "-", DetailFob(lines))]
  }

  /** One row per listed code, in strictly increasing code order, with a
      positive value that is the sum of that code's rows, a heading among
      the four, and the code's first present description. */
  lemma DetailLinesShape(rows: seq<Row>)
    ensures forall i, j :: 0 <= i < j < |DetailLines(rows)| ==>
      LexLess(DetailLines(rows)[i].code, DetailLines(rows)[j].code)
    ensures forall i :: 0 <= i < |DetailLines(rows)| ==>
      var line := DetailLines(rows)[i];
      line.fob > 0 && line.pork == "Sim" && Head(line.code) in Prefixes &&
      line.fob == SumOf(CodePairs(Kept(rows)), line.code) &&
      line.description == FirstDescription(Kept(rows), line.code)
  {
    var kept := Kept(rows);
    LinesShape(kept, SortedGroups(kept));
  }

  lemma LinesShape(kept: seq<Row>, groups: seq<(String, int)>)
    requires forall t :: 0 <= t < |kept| ==> InPrefixes(kept[t])
    requires multiset(groups) == multiset(Filter(GroupSum(CodePairs(kept)), PositiveGroup))
    requires forall i, j :: 0 <= i < j < |groups| ==> !LexLess(groups[j].0, groups[i].0)
    ensures forall i, j :: 0 <= i < j < |LinesOf(kept, groups)| ==>
      LexLess(LinesOf(kept, groups)[i].code, LinesOf(kept, groups)[j].code)
    ensures forall i :: 0 <= i < |LinesOf(kept, groups)| ==>
      var line := LinesOf(kept, groups)[i];
      line.fob > 0 && line.pork == "Sim" && Head(line.code) in Prefixes &&
      line.fob == SumOf(CodePairs(kept), line.code) &&
      line.description == FirstDescription(kept, line.code)
  {
    var lines := LinesOf(kept, groups);
    GroupsOrdered(kept, groups);
    GroupsValues(kept, groups);
    forall i, j | 0 <= i < j < |lines| ensures LexLess(lines[i].code, lines[j].code) {
      assert lines[i].code == groups[i].0 && lines[j].code == groups[j].0;
    }
    forall i | 0 <= i < |lines|
      ensures lines[i].fob > 0 && lines[i].pork == "Sim" && Head(lines[i].code) in Prefixes &&
        lines[i].fob == SumOf(CodePairs(kept), lines[i].code) &&
        lines[i].description == FirstDescription(kept, lines[i].code)
    {
      assert lines[i] == Line(kept, groups[i]);
    }
  }

  /** Every sorted group is a positive group of a kept code. */
  lemma GroupsValues(kept: seq<Row>, groups: seq<(String, int)>)
    requires forall t :: 0 <= t < |kept| ==> InPrefixes(kept[t])
    requires multiset(groups) == multiset(Filter(GroupSum(CodePairs(kept)), PositiveGroup))
    ensures forall i :: 0 <= i < |groups| ==>
      groups[i].1 > 0 && groups[i].1 == SumOf(CodePairs(kept), groups[i].0) && Head(groups[i].0) in Prefixes
  {
    forall i | 0 <= i < |groups|
      ensures groups[i].1 > 0 && groups[i].1 == SumOf(CodePairs(kept), groups[i].0) && Head(groups[i].0) in Prefixes
    {
      assert groups[i] in multiset(groups);
      GroupOfKept(kept, groups[i]);
    }
  }

  /** Sorted groups with distinct codes are in strictly increasing code order. */
  lemma GroupsOrdered(kept: seq<Row>, groups: seq<(String, int)>)
    requires multiset(groups) == multiset(Filter(GroupSum(CodePairs(kept)), PositiveGroup))
    requires forall i, j :: 0 <= i < j < |groups| ==> !LexLess(groups[j].0, groups[i].0)
    ensures forall i, j :: 0 <= i < j < |groups| ==> LexLess(groups[i].0, groups[j].0)
  {
    GroupKeysDistinct(CodePairs(kept), groups);
    forall i, j | 0 <= i < j < |groups| ensures LexLess(groups[i].0, groups[j].0) {
      LexTotal(groups[i].0, groups[j].0);
    }
  }

  /** A positive group is a group of a code of the kept rows. */
  lemma GroupOfKept(kept: seq<Row>, x: (String, int))
    requires forall t :: 0 <= t < |kept| ==> InPrefixes(kept[t])
    requires x in multiset(Filter(GroupSum(CodePairs(kept)), PositiveGroup))
    ensures x.1 > 0 && x.1 == SumOf(CodePairs(kept), x.0) && Head(x.0) in Prefixes
  {
    var pairs := CodePairs(kept);
    var g := GroupSum(pairs);
    assert x in Filter(g, PositiveGroup);
    assert x in multiset(g);
    GroupedRowIsSum(pairs, x);
    var t := GroupedKeyOccurs(pairs, x);
    assert InPrefixes(kept[t]);
  }

  /** Every code of the kept rows whose sum is positive is listed. */
  lemma DetailComplete(rows: seq<Row>, t: nat)
    requires t < |Kept(rows)| && SumOf(CodePairs(Kept(rows)), Kept(rows)[t].0) > 0
    ensures exists i :: 0 <= i < |DetailLines(rows)| && DetailLines(rows)[i].code == Kept(rows)[t].0
  {
    var kept := Kept(rows);
    var groups := SortedGroups(kept);
    LinesComplete(kept, groups, t);
    var lines := LinesOf(kept, groups);
    assert DetailLines(rows) == lines;
    var i :| 0 <= i < |lines| && lines[i].code == kept[t].0;
    assert DetailLines(rows)[i].code == kept[t].0;
  }

  lemma LinesComplete(kept: seq<Row>, groups: seq<(String, int)>, t: nat)
    requires multiset(groups) == multiset(Filter(GroupSum(CodePairs(kept)), PositiveGroup))
    requires t < |kept| && SumOf(CodePairs(kept), kept[t].0) > 0
    ensures exists i :: 0 <= i < |LinesOf(kept, groups)| && LinesOf(kept, groups)[i].code == kept[t].0
  {
    var code := kept[t].0;
    var s := CodePairs(kept);
    assert s[t].0 == code;
    GroupSumLookup(s, code);
    var g := GroupSum(s);
    var u :| 0 <= u < |g| && g[u] == (code, SumOf(s, code));
    assert g[u] in Filter(g, PositiveGroup);
    assert g[u] in multiset(groups);
    var i :| 0 <= i < |groups| && groups[i] == g[u];
    assert LinesOf(kept, groups)[i].code == code;
  }

  // ---------------------------------------------------------------------
  // The two totals

  /** The summary total is the value of the rows of the four headings,
      provided every code has at least four characters, as padded codes do. */
  lemma SummaryTotalIsHeadingSum(rows: seq<Row>)
    requires forall t :: 0 <= t < |rows| ==> |rows[t].0| >= 4
    ensures Summary(rows)[4].fob == SumOver(HeadPairs(rows), Prefixes)
  {
    var h := HeadPairs(rows);
    assert forall i :: 0 <= i < |Prefixes| ==> |Prefixes[i]| == 4;
    forall i | 0 <= i < |Prefixes| ensures StartingSum(rows, Prefixes[i]) == SumOf(h, Prefixes[i]) {
      StartingSumIsHeadSum(rows, Prefixes[i]);
    }
    SumOverFour(h, Prefixes);
  }

  lemma SumOverFour(s: seq<(String, int)>, ks: seq<String>)
    requires |ks| == 4
    ensures SumOver(s, ks) == SumOf(s, ks[0]) + SumOf(s, ks[1]) + SumOf(s, ks[2]) + SumOf(s, ks[3])
  {
    var one, two, three := ks[..1], ks[..2], ks[..3];
    assert one[..0] == [] && two[..1] == one && three[..2] == two && ks[..3] == three;
    assert SumOver(s, one) == SumOf(s, ks[0]);
    assert SumOver(s, two) == SumOver(s, one) + SumOf(s, ks[1]);
    assert SumOver(s, three) == SumOver(s, two) + SumOf(s, ks[2]);
  }

  lemma {:induction false} StartingSumIsHeadSum(rows: seq<Row>, p: String)
    requires forall t :: 0 <= t < |rows| ==> |rows[t].0| >= 4
    requires |p| == 4
    ensures StartingSum(rows, p) == SumOf(HeadPairs(rows), p)
  {
    if rows != [] {
      var init, x := rows[..|rows| - 1], rows[|rows| - 1];
      StartingSumIsHeadSum(init, p);
      assert rows == init + [x];
      PairsSnoc(init, x);
      SumOfSnoc(HeadPairs(init), (Head(x.0), Fob(x)), p);
      StartsWithIsHead(x.0, p);
    }
  }

  /** The kept rows' values add up to the sum over the four headings. */
  lemma {:induction false} KeptTotal(rows: seq<Row>)
    ensures Sum(Values(CodePairs(Kept(rows)))) == SumOver(HeadPairs(rows), Prefixes)
  {
    if rows == [] {
      EmptyHeadings(HeadPairs(rows), Prefixes);
    } else {
      var init, x := rows[..|rows| - 1], rows[|rows| - 1];
      assert rows == init + [x];
      FilterSnoc(init, x, InPrefixes);
      assert Kept(rows) == if InPrefixes(x) then Kept(init) + [x] else Kept(init);
      KeptTotal(init);
      PairsSnoc(init, x);
      PrefixesDistinct();
      SumOverSnocRows(HeadPairs(init), (Head(x.0), Fob(x)), Prefixes);
      if InPrefixes(x) {
        PairsSnoc(Kept(init), x);
        ValuesSnoc(CodePairs(Kept(init)), (x.0, Fob(x)));
      }
    }
  }

  /** The four headings differ (in their last character). */
  lemma PrefixesDistinct()
    ensures Distinct(Prefixes)
  {
    assert forall i :: 0 <= i < |Prefixes| ==> |Prefixes[i]| == 4;
    assert Prefixes[0][3] == '3' && Prefixes[1][3] == '6' && Prefixes[2][3] == '9' && Prefixes[3][3] == '0';
  }

  lemma PairsSnoc(rows: seq<Row>, x: Row)
    ensures CodePairs(rows + [x]) == CodePairs(rows) + [(x.0, Fob(x))]
    ensures HeadPairs(rows + [x]) == HeadPairs(rows) + [(Head(x.0), Fob(x))]
  {
  }

  lemma {:induction false} EmptyHeadings(s: seq<(String, int)>, ks: seq<String>)
    requires s == []
    ensures SumOver(s, ks) == 0
  {
    if ks != [] {
      EmptyHeadings(s, ks[..|ks| - 1]);
    }
  }

  /** The detail total is the sum of the positive groups. */
  lemma DetailTotalIsPositiveSum(rows: seq<Row>)
    ensures DetailFob(DetailLines(rows)) == Sum(Values(Filter(GroupSum(CodePairs(Kept(rows))), PositiveGroup)))
  {
    PositiveLinesTotal(Kept(rows));
  }

  lemma PositiveLinesTotal(kept: seq<Row>)
    ensures DetailFob(LinesOf(kept, SortedGroups(kept))) == Sum(Values(Filter(GroupSum(CodePairs(kept)), PositiveGroup)))
  {
    LinesTotal(kept, SortedGroups(kept), Filter(GroupSum(CodePairs(kept)), PositiveGroup));
  }

  lemma LinesTotal(kept: seq<Row>, groups: seq<(String, int)>, pos: seq<(String, int)>)
    requires multiset(groups) == multiset(pos)
    ensures DetailFob(LinesOf(kept, groups)) == Sum(Values(pos))
  {
    LinesFob(LinesOf(kept, groups), groups);
    ValuesSumPermutation(groups, pos);
  }

  lemma {:induction false} LinesFob(lines: seq<DetailRow>, groups: seq<(String, int)>)
    requires |lines| == |groups| && forall i :: 0 <= i < |lines| ==> lines[i].fob == groups[i].1
    ensures DetailFob(lines) == Sum(Values(groups))
  {
    if lines != [] {
      var n := |lines| - 1;
      LinesFob(lines[..n], groups[..n]);
      assert Values(groups) == Values(groups[..n]) + [groups[n].1];
      SumConcat(Values(groups[..n]), [groups[n].1]);
    }
  }

  /** Dropping the groups whose sum is not positive cannot lower the total:
      the detail total is at least the summary total. */
  lemma DetailTotalAtLeastSummary(rows: seq<Row>)
    requires forall t :: 0 <= t < |rows| ==> |rows[t].0| >= 4
    ensures Detail(rows)[|Detail(rows)| - 1].fob >= Summary(rows)[4].fob
  {
    var g := GroupSum(CodePairs(Kept(rows)));
    TotalsSplit(rows);
    NonPositiveTotal(Filter(g, NonPositiveGroup));
  }

  /** When no value is negative the two totals agree. */
  lemma TotalsAgree(rows: seq<Row>)
    requires forall t :: 0 <= t < |rows| ==> |rows[t].0| >= 4
    requires forall t :: 0 <= t < |rows| ==> Fob(rows[t]) >= 0
    ensures Detail(rows)[|Detail(rows)| - 1].fob == Summary(rows)[4].fob
  {
    TotalsSplit(rows);
    KeptNonNegative(rows);
    LeftOutGroupsAreZero(CodePairs(Kept(rows)));
  }

  lemma KeptNonNegative(rows: seq<Row>)
    requires forall t :: 0 <= t < |rows| ==> Fob(rows[t]) >= 0
    ensures forall t :: 0 <= t < |CodePairs(Kept(rows))| ==> CodePairs(Kept(rows))[t].1 >= 0
  {
    var kept := Kept(rows);
    forall t | 0 <= t < |kept| ensures Fob(kept[t]) >= 0 {
      assert kept[t] in multiset(kept);
      assert kept[t] in multiset(rows);
    }
  }

  /** With no negative value no group sums below zero, so the groups left
      out of the detail sum to zero. */
  lemma LeftOutGroupsAreZero(s: seq<(String, int)>)
    requires forall t :: 0 <= t < |s| ==> s[t].1 >= 0
    ensures Sum(Values(Filter(GroupSum(s), NonPositiveGroup))) == 0
  {
    var g := GroupSum(s);
    var zero := Filter(g, NonPositiveGroup);
    forall i | 0 <= i < |zero| ensures zero[i].1 == 0 {
      assert zero[i] in multiset(g);
      GroupedRowIsSum(s, zero[i]);
      NonNegativeSum(s, zero[i].0);
    }
    ZeroTotal(zero);
  }

  /** Summary total = detail total + the groups left out. */
  lemma TotalsSplit(rows: seq<Row>)
    requires forall t :: 0 <= t < |rows| ==> |rows[t].0| >= 4
    ensures var g := GroupSum(CodePairs(Kept(rows)));
      Summary(rows)[4].fob ==
      Detail(rows)[|Detail(rows)| - 1].fob + Sum(Values(Filter(g, NonPositiveGroup)))
  {
    var g := GroupSum(CodePairs(Kept(rows)));
    SummaryTotalIsHeadingSum(rows);
    KeptTotal(rows);
    GroupSumTotal(CodePairs(Kept(rows)));
    ValuesSplit(g);
    DetailTotalIsPositiveSum(rows);
  }

  /** Splitting groups into positive and non-positive splits their total. */
  lemma {:induction false} ValuesSplit(g: seq<(String, int)>)
    ensures Sum(Values(g)) == Sum(Values(Filter(g, PositiveGroup))) + Sum(Values(Filter(g, NonPositiveGroup)))
  {
    if g != [] {
      var init, x := g[..|g| - 1], g[|g| - 1];
      assert g == init + [x];
      ValuesSplit(init);
      FilterSnoc(init, x, PositiveGroup);
      FilterSnoc(init, x, NonPositiveGroup);
      ValuesSnoc(init, x);
      if x.1 > 0 {
        ValuesSnoc(Filter(init, PositiveGroup), x);
      } else {
        ValuesSnoc(Filter(init, NonPositiveGroup), x);
      }
    }
  }

  lemma {:induction false} NonPositiveTotal(s: seq<(String, int)>)
    requires forall i :: 0 <= i < |s| ==> NonPositiveGroup(s[i])
    ensures Sum(Values(s)) <= 0
  {
    if s != [] {
      var init := s[..|s| - 1];
      assert s == init + [s[|s| - 1]];
      NonPositiveTotal(init);
      ValuesSnoc(init, s[|s| - 1]);
    }
  }

  lemma {:induction false} ZeroTotal(s: seq<(String, int)>)
    requires forall i :: 0 <= i < |s| ==> s[i].1 == 0
    ensures Sum(Values(s)) == 0
  {
    if s != [] {
      var init := s[..|s| - 1];
      assert s == init + [s[|s| - 1]];
      ZeroTotal(init);
      ValuesSnoc(init, s[|s| - 1]);
    }
  }

  lemma {:induction false} NonNegativeSum(s: seq<(String, int)>, k: String)
    requires forall i :: 0 <= i < |s| ==> s[i].1 >= 0
    ensures SumOf(s, k) >= 0
  {
    if s != [] {
      var init := s[..|s| - 1];
      NonNegativeSum(init, k);
      assert s == init + [s[|s| - 1]];
      SumOfSnoc(init, s[|s| - 1], k);
    }
  }

  // ---------------------------------------------------------------------
  // The whole script

  /** `gerar_demanda2` without the Excel output. */
  function Demanda2(exports: seq<Export>, ncms: seq<Nomenclature>): (r: Report)
    ensures |r.summary| == 5 && |r.detail| >= 1
  {
    var rows := Selected(exports, ncms);
    Report(Summary(rows), Detail(rows))
  }

  method GerarDemanda2(exports: seq<Export>, ncms: seq<Nomenclature>) returns (r: Report)
    ensures r == Demanda2(exports, ncms)
  {
    var rows := Selected(exports, ncms);
    var summary := BuildSummary(rows);
    r := Report(summary, Detail(rows));
  }

  /** No exported value is negative (a value that did not parse counts as
      missing). */
  predicate NoNegativeFob(exports: seq<Export>) {
    forall i :: 0 <= i < |exports| ==> ParseInt(exports[i].fob).None? || ParseInt(exports[i].fob).value >= 0
  }

  lemma SelectedNonNegative(exports: seq<Export>, ncms: seq<Nomenclature>)
    requires NoNegativeFob(exports)
    ensures forall t :: 0 <= t < |Selected(exports, ncms)| ==> Fob(Selected(exports, ncms)[t]) >= 0
  {
    var rows := Selected(exports, ncms);
    forall t | 0 <= t < |rows| ensures Fob(rows[t]) >= 0 {
      SelectedSound(exports, ncms, t);
      LeftFob(exports, (rows[t].0, rows[t].1));
    }
  }

  lemma LeftFob(exports: seq<Export>, x: (String, Shipment))
    requires NoNegativeFob(exports) && x in Lefts(exports)
    ensures x.1.fob.None? || x.1.fob.value >= 0
  {
    var l := Lefts(exports);
    var i :| 0 <= i < |l| && l[i] == x;
    assert x.1.fob == ParseInt(exports[i].fob);
  }

  /** The detail total of the script is never below its summary total, and
      equals it when no exported value is negative. */
  lemma ReportTotals(exports: seq<Export>, ncms: seq<Nomenclature>)
    ensures var r := Demanda2(exports, ncms);
      r.detail[|r.detail| - 1].fob >= r.summary[4].fob
    ensures NoNegativeFob(exports) ==>
      var r := Demanda2(exports, ncms);
      r.detail[|r.detail| - 1].fob == r.summary[4].fob
  {
    var rows := Selected(exports, ncms);
    SelectedPadded(exports, ncms);
    DetailTotalAtLeastSummary(rows);
    if NoNegativeFob(exports) {
      SelectedNonNegative(exports, ncms);
      TotalsAgree(rows);
    }
    assert Demanda2(exports, ncms) == Report(Summary(rows), Detail(rows));
  }
}
