/** `gerar_relatorio_consolidado`: the findings of the earlier checks become
    one list of inconsistencies, each graded Alta, Média or Baixa, and a list
    of recommendations derived from the counts and flags of those checks. */
module Consolidated {
  import opened Wrappers
  import opened Text
  import opened Seqs
  import opened Percent
  import opened Sorting
  import opened Discrepancy
  import Names
  import CV = CrossValidation
  import IC = InternalConsistency
  import Structural

  /** `severidade` of an entry, `prioridade` of a recommendation. */
  datatype Severity = Alta | Media | Baixa

  /** `tipo` of an entry. */
  datatype Kind = EncodingKind | RegionKind | MunicipalityKind | InternalKind | MappingKind

  /** What an entry reports: a message, or a gap between two counts. */
  datatype Detail = Message(text: String) | Gap(diff: int, pct: Pct)

  /** One row of `df_inconsistencias`. */
  datatype Entry = Entry(kind: Kind, entity: Option<String>, detail: Detail, severity: Severity)

  /** The three columns the gap rules read from a comparison row. */
  datatype GapRow = GapRow(entity: Option<String>, diff: Option<int>, pct: Pct)

  /** A row of `comparacao_ordenada`, named by its `microrregiao` / `municipio` column. */
  function ComparisonRows(cs: seq<CV.Comparison>): (rows: seq<GapRow>)
    ensures |rows| == |cs|
    ensures forall i :: 0 <= i < |cs| ==> rows[i] == GapRow(cs[i].name, cs[i].diff, cs[i].pct)
  {
    seq(|cs|, i requires 0 <= i < |cs| => GapRow(cs[i].name, cs[i].diff, cs[i].pct))
  }

  /** A row of `comparacao_micro`, named by its `microrregiao_norm` key. */
  function CheckRows(cs: seq<IC.RegionCheck>): (rows: seq<GapRow>)
    ensures |rows| == |cs|
    ensures forall i :: 0 <= i < |cs| ==> rows[i] == GapRow(cs[i].key, cs[i].diff, cs[i].pct)
  {
    seq(|cs|, i requires 0 <= i < |cs| => GapRow(cs[i].key, cs[i].diff, cs[i].pct))
  }

  // ---------------------------------------------------------------------
  // Severity rules

  /** The severity of a percentage gap: Alta above `high`, Média above
      `mid`, Baixa otherwise, all on the magnitude. */
  function Grade(pct: Pct, high: real, mid: real): (s: Severity)
    ensures s == Alta <==> AbsGreater(pct, high)
    ensures s == Media <==> !AbsGreater(pct, high) && AbsGreater(pct, mid)
    ensures s == Baixa <==> !AbsGreater(pct, high) && !AbsGreater(pct, mid)
  {
    if AbsGreater(pct, high) then Alta else if AbsGreater(pct, mid) then Media else Baixa
  }

  /** The unmatched-municipality rule: more than 50 is Alta, more than 10 Média. */
  function CountGrade(n: nat): (s: Severity)
    ensures s == Alta <==> n > 50
    ensures s == Baixa <==> n <= 10
  {
    if n > 50 then Alta else if n > 10 then Media else Baixa
  }

  // ---------------------------------------------------------------------
  // The inconsistency list

  /** `abs(row.get('diferenca', 0)) > 0`: a missing difference never passes. */
  predicate HasGap(row: GapRow) {
    Exceeds(row.diff, 0.0)
  }

  function GapEntry(row: GapRow, kind: Kind, high: real, mid: real): Entry
    requires HasGap(row)
  {
    Entry(kind, row.entity, Gap(row.diff.value, row.pct), Grade(row.pct, high, mid))
  }

  /** The entries one comparison table contributes, in row order. */
  function GapEntries(rows: seq<GapRow>, kind: Kind, high: real, mid: real): (es: seq<Entry>)
    ensures |es| == Count(rows, HasGap)
    ensures forall i :: 0 <= i < |es| ==> es[i].kind == kind && es[i].detail.Gap? && es[i].detail.diff != 0
  {
    if rows == [] then []
    else
      var last := rows[|rows| - 1];
      GapEntries(rows[..|rows| - 1], kind, high, mid) + (if HasGap(last) then [GapEntry(last, kind, high, mid)] else [])
  }

  /** `e` is the entry of some row of `rows` with a difference. */
  predicate EntryOfSomeRow(e: Entry, rows: seq<GapRow>, kind: Kind, high: real, mid: real) {
    exists k :: 0 <= k < |rows| && HasGap(rows[k]) && e == GapEntry(rows[k], kind, high, mid)
  }

  /** Every gap entry comes from a row with a non-zero difference, carrying
      its entity, its difference and the severity of its percentage, and every
      such row has its entry. */
  lemma {:induction false} GapEntriesMatchRows(rows: seq<GapRow>, kind: Kind, high: real, mid: real)
    ensures forall i :: 0 <= i < |GapEntries(rows, kind, high, mid)| ==>
      EntryOfSomeRow(GapEntries(rows, kind, high, mid)[i], rows, kind, high, mid)
    ensures forall k :: 0 <= k < |rows| && HasGap(rows[k]) ==> GapEntry(rows[k], kind, high, mid) in GapEntries(rows, kind, high, mid)
  {
    if rows != [] {
      var init := rows[..|rows| - 1];
      var last := |rows| - 1;
      GapEntriesMatchRows(init, kind, high, mid);
      var before := GapEntries(init, kind, high, mid);
      var es := GapEntries(rows, kind, high, mid);
      assert HasGap(rows[last]) ==> es == before + [GapEntry(rows[last], kind, high, mid)];
      assert !HasGap(rows[last]) ==> es == before;
      forall i | 0 <= i < |es|
        ensures EntryOfSomeRow(es[i], rows, kind, high, mid)
      {
        if i < |before| {
          assert EntryOfSomeRow(before[i], init, kind, high, mid);
          var k :| 0 <= k < |init| && HasGap(init[k]) && before[i] == GapEntry(init[k], kind, high, mid);
          assert init[k] == rows[k];
          assert es[i] == before[i];
        } else {
          assert HasGap(rows[last]) && es[i] == GapEntry(rows[last], kind, high, mid);
        }
      }
      forall k | 0 <= k < |rows| && HasGap(rows[k])
        ensures GapEntry(rows[k], kind, high, mid) in es
      {
        if k < last {
          assert init[k] == rows[k];
          assert GapEntry(rows[k], kind, high, mid) in before;
        }
      }
    }
  }

  /** At most one mapping entry, present exactly when some municipality is unmatched. */
  function MappingEntries(unmatched: nat): (es: seq<Entry>)
    ensures |es| <= 1
    ensures |es| == 1 <==> unmatched > 0
    ensures |es| == 1 ==> es[0].kind == MappingKind && es[0].severity == CountGrade(unmatched)
  {
    if unmatched > 0 then
      [Entry(MappingKind, Some("Municípios-Microrregiões"),
        Message(NatToDecimal(unmatched) + " municípios sem correspondência na tabela silver"), CountGrade(unmatched))]
    else []
  }

  /** What `problema.split(':')` unpacking into two names raises. */
  const UnpackError: String := "ValueError"

  /** The encoding entry of one problem message, as the script builds it:
      the text after the colon, trimmed, followed by the phrase again. */
  function EncodingEntryAsWritten(table: String, problem: String): (r: Result<Entry, String>)
    ensures r.Success? <==> |Split(problem, ':')| == 2
  {
    var parts := Split(problem, ':');
    if |parts| != 2 then Failure(UnpackError)
    else Success(Entry(EncodingKind, Some(table + " - " + Strip(parts[0])),
      Message(Strip(parts[1]) + Structural.ProblemSuffix), Media))
  }

  /** The encoding entry of one problem message: the entity is the table and
      the trimmed column name before the colon, the description the trimmed
      text after it, which already reads "n valores com possíveis problemas
      de codificação". */
  function EncodingEntry(table: String, problem: String): (r: Result<Entry, String>)
    ensures r.Success? <==> |Split(problem, ':')| == 2
    ensures r.Success? ==> r.value.kind == EncodingKind && r.value.severity == Media
  {
    var parts := Split(problem, ':');
    if |parts| != 2 then Failure(UnpackError)
    else Success(Entry(EncodingKind, Some(table + " - " + Strip(parts[0])), Message(Strip(parts[1])), Media))
  }

  /** A text with one colon splits around it. */
  lemma SplitAtOnlyColon(a: String, b: String)
    requires ':' !in a && ':' !in b
    ensures Split(a + [':'] + b, ':') == [a, b]
  {
    var s := a + [':'] + b;
    assert forall j :: 0 <= j < |a| ==> s[j] == a[j];
    assert s[|a|] == ':';
    assert IndexOf(s, ':') == Some(|a|);
    assert s[..|a|] == a;
    assert s[|a| + 1..] == b;
    assert Split(b, ':') == [b];
  }

  /** The message after the colon: a blank, the count, the phrase. */
  function ProblemRest(n: nat): String {
    NatToDecimal(n) + Structural.ProblemSuffix
  }

  lemma SuffixHasNoColon()
    ensures ':' !in Structural.ProblemSuffix
  {
    var a, b, c := " valores com", " possíveis problemas", " de codificação";
    assert Structural.ProblemSuffix == a + b + c;
    assert ':' !in a && ':' !in b && ':' !in c;
  }

  lemma ProblemTextShape(col: String, n: nat)
    ensures Structural.ProblemText(col, n) == col + [':'] + ([' '] + ProblemRest(n))
  {
    var d, x := NatToDecimal(n), Structural.ProblemSuffix;
    assert ": " == [':'] + [' '];
    calc {
      Structural.ProblemText(col, n);
      col + ": " + d + x;
      col + [':'] + ([' '] + (d + x));
    }
  }

  /** The structural message splits at its one colon. */
  lemma ProblemParts(col: String, n: nat)
    requires ':' !in col
    ensures Split(Structural.ProblemText(col, n), ':') == [col, [' '] + ProblemRest(n)]
  {
    ProblemTextShape(col, n);
    SuffixHasNoColon();
    assert ':' !in ProblemRest(n);
    SplitAtOnlyColon(col, [' '] + ProblemRest(n));
  }

  /** The text after the colon strips to the count and the phrase. */
  lemma ProblemRestStrips(n: nat)
    ensures Strip([' '] + ProblemRest(n)) == ProblemRest(n)
  {
    var rest := ProblemRest(n);
    assert rest[0] == NatToDecimal(n)[0];
    assert rest[|rest| - 1] == Structural.ProblemSuffix[|Structural.ProblemSuffix| - 1] == 'o';
    Text.StripLeadingBlank(rest);
  }

  /** A message written by the structural check, for a column name without a
      colon, comes back as the column, the count and the phrase once; the
      script's own description repeats the phrase. */
  lemma ProblemRoundTrip(table: String, col: String, n: nat)
    requires ':' !in col
    ensures EncodingEntry(table, Structural.ProblemText(col, n)) ==
      Success(Entry(EncodingKind, Some(table + " - " + Strip(col)), Message(ProblemRest(n)), Media))
    ensures EncodingEntryAsWritten(table, Structural.ProblemText(col, n)) ==
      Success(Entry(EncodingKind, Some(table + " - " + Strip(col)),
        Message(ProblemRest(n) + Structural.ProblemSuffix), Media))
  {
    ProblemParts(col, n);
    ProblemRestStrips(n);
  }

  /** A column name holding a colon makes the message split into three or
      more parts, and the unpacking fails. */
  lemma ColonInColumnFails(table: String, col: String, n: nat)
    requires ':' in col
    ensures EncodingEntry(table, Structural.ProblemText(col, n)).Failure?
  {
    var s := Structural.ProblemText(col, n);
    var parts := Split(s, ':');
    var k :| 0 <= k < |col| && col[k] == ':';
    assert s[k] == ':' && s[|col|] == ':';
    if |parts| == 2 {
      assert JoinWith(parts[1..], ':') == parts[1];
      assert s == parts[0] + [':'] + parts[1];
      OnlyColonAt(parts[0], parts[1], k);
      OnlyColonAt(parts[0], parts[1], |col|);
    }
  }

  /** In `a + [':'] + b` with colon-free parts, the only colon is at `|a|`. */
  lemma OnlyColonAt(a: String, b: String, k: nat)
    requires ':' !in a && ':' !in b && k < |a| + 1 + |b| && (a + [':'] + b)[k] == ':'
    ensures k == |a|
  {
    var s := a + [':'] + b;
    assert forall j :: 0 <= j < |a| ==> s[j] == a[j];
    assert forall j :: |a| < j < |s| ==> s[j] == b[j - |a| - 1];
  }

  /** The entries of one table's message list; the first message that does
      not split in two ends the script. */
  function TableEntries(table: String, problems: seq<String>): (r: Result<seq<Entry>, String>)
    ensures r.Success? ==> |r.value| == |problems|
    ensures r.Success? ==> forall i :: 0 <= i < |r.value| ==> r.value[i].kind == EncodingKind
    ensures r.Failure? ==> r.error == UnpackError
  {
    if problems == [] then Success([])
    else match TableEntries(table, problems[..|problems| - 1])
      case Failure(e) => Failure(e)
      case Success(es) =>
        match EncodingEntry(table, problems[|problems| - 1])
        case Failure(e) => Failure(e)
        case Success(x) => Success(es + [x])
  }

  /** The entries of every table, tables in dictionary order. */
  function EncodingEntries(structure: seq<(String, seq<String>)>): (r: Result<seq<Entry>, String>)
    ensures r.Failure? ==> r.error == UnpackError
    ensures r.Success? ==> forall i :: 0 <= i < |r.value| ==> r.value[i].kind == EncodingKind
  {
    if structure == [] then Success([])
    else
      var last := structure[|structure| - 1];
      match EncodingEntries(structure[..|structure| - 1])
      case Failure(e) => Failure(e)
      case Success(es) =>
        match TableEntries(last.0, last.1)
        case Failure(e) => Failure(e)
        case Success(ts) => Success(es + ts)
  }

  /** Every message that splits in two gives one entry. */
  lemma {:induction false} TableEntriesSucceed(table: String, problems: seq<String>)
    requires forall i :: 0 <= i < |problems| ==> |Split(problems[i], ':')| == 2
    ensures TableEntries(table, problems).Success?
  {
    if problems != [] {
      TableEntriesSucceed(table, problems[..|problems| - 1]);
    }
  }

  /** The structural check's messages for a table whose column names have
      no colon all parse: one entry per flagged column. */
  lemma StructuralMessagesParse(table: String, f: Structural.Frame)
    requires forall i :: 0 <= i < |f.columns| ==> ':' !in f.columns[i].name
    ensures TableEntries(table, Structural.Report(f).problems).Success?
    ensures |TableEntries(table, Structural.Report(f).problems).value| == Count(f.columns, Structural.Flagged)
  {
    var ps := Structural.Report(f).problems;
    Structural.ProblemsAreFlaggedColumns(f.columns);
    forall i | 0 <= i < |ps| ensures |Split(ps[i], ':')| == 2 {
      assert ps[i] in ps;
      var k :| 0 <= k < |f.columns| && Structural.Flagged(f.columns[k]) && ps[i] == Structural.ProblemOf(f.columns[k]);
      ProblemRoundTrip(table, f.columns[k].name, Structural.MojibakeCount(f.columns[k]));
    }
    TableEntriesSucceed(table, ps);
  }

  /** `df_inconsistencias`, before it becomes a table: encoding problems,
      region gaps, municipality gaps, internal gaps, unmatched municipalities. */
  function Entries(structure: seq<(String, seq<String>)>, micro: CV.Report, muni: CV.MunicipalityReport,
                   cons: IC.ConsistencyReport): (r: Result<seq<Entry>, String>)
    ensures r.Failure? <==> EncodingEntries(structure).Failure?
  {
    match EncodingEntries(structure)
    case Failure(e) => Failure(e)
    case Success(enc) =>
      Success(enc
        + GapEntries(ComparisonRows(micro.ordered), RegionKind, 5.0, 1.0)
        + GapEntries(ComparisonRows(muni.base.ordered), MunicipalityKind, 5.0, 1.0)
        + GapEntries(CheckRows(cons.comparison), InternalKind, 10.0, 5.0)
        + MappingEntries(|cons.unmatched|))
  }

  /** The entries whose `tipo` is `k`. */
  function OfKind(k: Kind): Entry -> bool {
    (e: Entry) => e.kind == k
  }

  /** Each comparison table contributes to `inconsistencias` exactly its
      rows with a difference, graded on that table's thresholds: 5 and 1 per
      cent for regions and municipalities, 10 and 5 per cent for the internal
      check. */
  lemma EntriesGraded(structure: seq<(String, seq<String>)>, micro: CV.Report, muni: CV.MunicipalityReport,
                      cons: IC.ConsistencyReport, es: seq<Entry>)
    requires Entries(structure, micro, muni, cons) == Success(es)
    ensures forall i :: 0 <= i < |es| && es[i].kind == RegionKind ==>
      EntryOfSomeRow(es[i], ComparisonRows(micro.ordered), RegionKind, 5.0, 1.0)
    ensures forall i :: 0 <= i < |es| && es[i].kind == MunicipalityKind ==>
      EntryOfSomeRow(es[i], ComparisonRows(muni.base.ordered), MunicipalityKind, 5.0, 1.0)
    ensures forall i :: 0 <= i < |es| && es[i].kind == InternalKind ==>
      EntryOfSomeRow(es[i], CheckRows(cons.comparison), InternalKind, 10.0, 5.0)
    ensures Count(es, OfKind(RegionKind)) == Count(ComparisonRows(micro.ordered), HasGap)
    ensures Count(es, OfKind(MunicipalityKind)) == Count(ComparisonRows(muni.base.ordered), HasGap)
    ensures Count(es, OfKind(InternalKind)) == Count(CheckRows(cons.comparison), HasGap)
  {
    var enc := EncodingEntries(structure).value;
    var micros, munis, checks := ComparisonRows(micro.ordered), ComparisonRows(muni.base.ordered), CheckRows(cons.comparison);
    var b := GapEntries(micros, RegionKind, 5.0, 1.0);
    var c := GapEntries(munis, MunicipalityKind, 5.0, 1.0);
    var d := GapEntries(checks, InternalKind, 10.0, 5.0);
    assert es == enc + b + c + d + MappingEntries(|cons.unmatched|);
    KindSplit(es, enc, b, c, d, MappingEntries(|cons.unmatched|));
    GapEntriesMatchRows(micros, RegionKind, 5.0, 1.0);
    GapEntriesMatchRows(munis, MunicipalityKind, 5.0, 1.0);
    GapEntriesMatchRows(checks, InternalKind, 10.0, 5.0);
  }

  /** Five runs of entries, one kind each: a gap kind's entries are exactly
      its run. */
  lemma KindSplit(s: seq<Entry>, a: seq<Entry>, b: seq<Entry>, c: seq<Entry>, d: seq<Entry>, m: seq<Entry>)
    requires s == a + b + c + d + m
    requires forall i :: 0 <= i < |a| ==> a[i].kind == EncodingKind
    requires forall i :: 0 <= i < |b| ==> b[i].kind == RegionKind
    requires forall i :: 0 <= i < |c| ==> c[i].kind == MunicipalityKind
    requires forall i :: 0 <= i < |d| ==> d[i].kind == InternalKind
    requires forall i :: 0 <= i < |m| ==> m[i].kind == MappingKind
    ensures Count(s, OfKind(RegionKind)) == |b|
    ensures Count(s, OfKind(MunicipalityKind)) == |c|
    ensures Count(s, OfKind(InternalKind)) == |d|
    ensures forall i :: 0 <= i < |s| && s[i].kind == RegionKind ==> s[i] in b
    ensures forall i :: 0 <= i < |s| && s[i].kind == MunicipalityKind ==> s[i] in c
    ensures forall i :: 0 <= i < |s| && s[i].kind == InternalKind ==> s[i] in d
  {
    var region, municipality, internal := OfKind(RegionKind), OfKind(MunicipalityKind), OfKind(InternalKind);
    CountFive(a, b, c, d, m, region);
    CountNone(a, region); CountAll(b, region); CountNone(c, region); CountNone(d, region); CountNone(m, region);
    CountFive(a, b, c, d, m, municipality);
    CountNone(a, municipality); CountNone(b, municipality); CountAll(c, municipality);
    CountNone(d, municipality); CountNone(m, municipality);
    CountFive(a, b, c, d, m, internal);
    CountNone(a, internal); CountNone(b, internal); CountNone(c, internal);
    CountAll(d, internal); CountNone(m, internal);
    InOwnRun(s, a, b, c, d, m, 1, RegionKind);
    InOwnRun(s, a, b, c, d, m, 2, MunicipalityKind);
    InOwnRun(s, a, b, c, d, m, 3, InternalKind);
  }

  lemma CountFive<T>(a: seq<T>, b: seq<T>, c: seq<T>, d: seq<T>, m: seq<T>, p: T -> bool)
    ensures Count(a + b + c + d + m, p) == Count(a, p) + Count(b, p) + Count(c, p) + Count(d, p) + Count(m, p)
  {
    CountConcat(a + b + c + d, m, p);
    CountFour(a, b, c, d, p);
  }

  /** Every entry of a kind found in only one of five runs lies in that run. */
  lemma InOwnRun(s: seq<Entry>, a: seq<Entry>, b: seq<Entry>, c: seq<Entry>, d: seq<Entry>, m: seq<Entry>,
                 k: nat, kind: Kind)
    requires k < 5 && s == a + b + c + d + m
    requires forall i :: 0 <= i < |a| ==> (a[i].kind == kind <==> k == 0)
    requires forall i :: 0 <= i < |b| ==> (b[i].kind == kind <==> k == 1)
    requires forall i :: 0 <= i < |c| ==> (c[i].kind == kind <==> k == 2)
    requires forall i :: 0 <= i < |d| ==> (d[i].kind == kind <==> k == 3)
    requires forall i :: 0 <= i < |m| ==> (m[i].kind == kind <==> k == 4)
    ensures forall i :: 0 <= i < |s| && s[i].kind == kind ==> s[i] in [a, b, c, d, m][k]
  {
    forall i | 0 <= i < |s| && s[i].kind == kind
      ensures s[i] in [a, b, c, d, m][k]
    {
      assert s[i] in a || s[i] in b || s[i] in c || s[i] in d || s[i] in m;
    }
  }

  /** With no encoding message, no non-zero difference and no unmatched
      municipality, the list of inconsistencies is empty. */
  lemma CleanChecksGiveNoEntries(structure: seq<(String, seq<String>)>, micro: CV.Report,
                                 muni: CV.MunicipalityReport, cons: IC.ConsistencyReport)
    requires forall i :: 0 <= i < |structure| ==> structure[i].1 == []
    requires forall t :: 0 <= t < |micro.ordered| ==> !Exceeds(micro.ordered[t].diff, 0.0)
    requires forall t :: 0 <= t < |muni.base.ordered| ==> !Exceeds(muni.base.ordered[t].diff, 0.0)
    requires forall t :: 0 <= t < |cons.comparison| ==> !Exceeds(cons.comparison[t].diff, 0.0)
    requires cons.unmatched == []
    ensures Entries(structure, micro, muni, cons) == Success([])
  {
    NoTableEntries(structure);
    NoGaps(ComparisonRows(micro.ordered));
    NoGaps(ComparisonRows(muni.base.ordered));
    NoGaps(CheckRows(cons.comparison));
    assert GapEntries(ComparisonRows(micro.ordered), RegionKind, 5.0, 1.0) == [];
    assert GapEntries(ComparisonRows(muni.base.ordered), MunicipalityKind, 5.0, 1.0) == [];
    assert GapEntries(CheckRows(cons.comparison), InternalKind, 10.0, 5.0) == [];
    assert MappingEntries(|cons.unmatched|) == [];
    var none: seq<Entry> := [];
    assert none + none + none + none + none == none;
  }

  lemma {:induction false} NoTableEntries(structure: seq<(String, seq<String>)>)
    requires forall i :: 0 <= i < |structure| ==> structure[i].1 == []
    ensures EncodingEntries(structure) == Success([])
  {
    if structure != [] {
      var init := structure[..|structure| - 1];
      assert forall i :: 0 <= i < |init| ==> init[i] == structure[i];
      NoTableEntries(init);
      var last := structure[|structure| - 1];
      assert last.1 == [];
      assert TableEntries(last.0, last.1) == Success([]);
      var none: seq<Entry> := [];
      assert EncodingEntries(structure) == Success(none + none);
      assert none + none == none;
      assert EncodingEntries(structure) == Success(none);
    }
  }

  lemma NoGaps(rows: seq<GapRow>)
    requires forall k :: 0 <= k < |rows| ==> !HasGap(rows[k])
    ensures Count(rows, HasGap) == 0
  {
    CountPositive(rows, HasGap);
  }

  /** Appends one table's gap entries, row by row. */
  method AppendGaps(acc: seq<Entry>, rows: seq<GapRow>, kind: Kind, high: real, mid: real) returns (out: seq<Entry>)
    ensures out == acc + GapEntries(rows, kind, high, mid)
  {
    out := acc;
    var i := 0;
    while i < |rows|
      invariant 0 <= i <= |rows|
      invariant out == acc + GapEntries(rows[..i], kind, high, mid)
    {
      assert rows[..i + 1][..i] == rows[..i];
      if Exceeds(rows[i].diff, 0.0) {
        out := out + [GapEntry(rows[i], kind, high, mid)];
      }
      i := i + 1;
    }
    assert rows[..i] == rows;
  }

  /** Appends one table's encoding entries, message by message. */
  method AppendTable(acc: seq<Entry>, table: String, problems: seq<String>) returns (out: Result<seq<Entry>, String>)
    ensures TableEntries(table, problems).Failure? ==> out == Failure(UnpackError)
    ensures TableEntries(table, problems).Success? ==> out == Success(acc + TableEntries(table, problems).value)
  {
    var es := acc;
    var j := 0;
    while j < |problems|
      invariant 0 <= j <= |problems|
      invariant TableEntries(table, problems[..j]).Success?
      invariant es == acc + TableEntries(table, problems[..j]).value
    {
      assert problems[..j + 1][..j] == problems[..j];
      var e := EncodingEntry(table, problems[j]);
      if e.Failure? {
        TableFailurePersists(table, problems, j + 1);
        return Failure(UnpackError);
      }
      es := es + [e.value];
      j := j + 1;
    }
    assert problems[..j] == problems;
    return Success(es);
  }

  lemma {:induction false} TableFailurePersists(table: String, problems: seq<String>, n: nat)
    requires n <= |problems| && TableEntries(table, problems[..n]).Failure?
    ensures TableEntries(table, problems).Failure?
    decreases |problems| - n
  {
    if n < |problems| {
      assert problems[..n + 1][..n] == problems[..n];
      TableFailurePersists(table, problems, n + 1);
    } else {
      assert problems[..n] == problems;
    }
  }

  lemma {:induction false} EncodingFailurePersists(structure: seq<(String, seq<String>)>, n: nat)
    requires n <= |structure| && EncodingEntries(structure[..n]).Failure?
    ensures EncodingEntries(structure).Failure?
    decreases |structure| - n
  {
    if n < |structure| {
      assert structure[..n + 1][..n] == structure[..n];
      EncodingFailurePersists(structure, n + 1);
    } else {
      assert structure[..n] == structure;
    }
  }

  /** The loop over `resultados_estrutura` that fills the encoding entries. */
  method CollectEncoding(structure: seq<(String, seq<String>)>) returns (r: Result<seq<Entry>, String>)
    ensures r == EncodingEntries(structure)
  {
    var es: seq<Entry> := [];
    var i := 0;
    while i < |structure|
      invariant 0 <= i <= |structure|
      invariant EncodingEntries(structure[..i]) == Success(es)
    {
      assert structure[..i + 1][..i] == structure[..i];
      var t := AppendTable(es, structure[i].0, structure[i].1);
      if t.Failure? {
        EncodingFailurePersists(structure, i + 1);
        return Failure(UnpackError);
      }
      es := t.value;
      i := i + 1;
    }
    assert structure[..i] == structure;
    return Success(es);
  }

  /** The loops of `gerar_relatorio_consolidado` that fill `inconsistencias`. */
  method CollectEntries(structure: seq<(String, seq<String>)>, micro: CV.Report, muni: CV.MunicipalityReport,
                        cons: IC.ConsistencyReport) returns (r: Result<seq<Entry>, String>)
    ensures r == Entries(structure, micro, muni, cons)
  {
    r := CollectEncoding(structure);
    if r.Failure? {
      return;
    }
    var es := r.value;
    es := AppendGaps(es, ComparisonRows(micro.ordered), RegionKind, 5.0, 1.0);
    es := AppendGaps(es, ComparisonRows(muni.base.ordered), MunicipalityKind, 5.0, 1.0);
    es := AppendGaps(es, CheckRows(cons.comparison), InternalKind, 10.0, 5.0);
    if |cons.unmatched| > 0 {
      es := es + MappingEntries(|cons.unmatched|);
    } else {
      assert MappingEntries(|cons.unmatched|) == [];
      assert es + [] == es;
    }
    return Success(es);
  }

  // ---------------------------------------------------------------------
  // Severity counts

  datatype SeverityTotals = SeverityTotals(alta: nat, media: nat, baixa: nat)

  predicate IsAlta(e: Entry) { e.severity == Alta }
  predicate IsMedia(e: Entry) { e.severity == Media }
  predicate IsBaixa(e: Entry) { e.severity == Baixa }

  /** `total_alta`, `total_media`, `total_baixa`, zero for an empty list. */
  function Tally(items: seq<Entry>): (t: SeverityTotals)
    ensures t.alta == Count(items, IsAlta) && t.media == Count(items, IsMedia) && t.baixa == Count(items, IsBaixa)
    ensures t.alta <= |items| && t.media <= |items| && t.baixa <= |items|
  {
    SeverityTotals(Count(items, IsAlta), Count(items, IsMedia), Count(items, IsBaixa))
  }

  /** Every entry has one of the three severities, so the counts add up to
      the number of entries. */
  lemma {:induction false} TallyCoversAll(items: seq<Entry>)
    ensures Tally(items).alta + Tally(items).media + Tally(items).baixa == |items|
  {
    if items != [] {
      TallyCoversAll(items[..|items| - 1]);
    }
  }

  /** The counts of a list made of two parts are the sums of the parts'
      counts, and they do not depend on the order of the entries. */
  lemma TallyConcat(a: seq<Entry>, b: seq<Entry>)
    ensures Tally(a + b) == SeverityTotals(Tally(a).alta + Tally(b).alta, Tally(a).media + Tally(b).media, Tally(a).baixa + Tally(b).baixa)
    ensures Tally(a + b) == Tally(b + a)
  {
    CountConcat(a, b, IsAlta);
    CountConcat(a, b, IsMedia);
    CountConcat(a, b, IsBaixa);
    CountConcat(b, a, IsAlta);
    CountConcat(b, a, IsMedia);
    CountConcat(b, a, IsBaixa);
  }

  /** The counts as the script takes them: `pd.DataFrame([])` has no
      `severidade` column, so an empty list raises a KeyError. */
  function TallyAsWritten(items: seq<Entry>): (r: Result<SeverityTotals, String>)
    ensures r.Failure? <==> items == []
    ensures r.Success? ==> r.value == Tally(items)
  {
    if items == [] then Failure("KeyError: 'severidade'") else Success(Tally(items))
  }

  /** When every check comes back clean, the script stops at the counts,
      where the intended report has three zeros. */
  lemma CleanReportFails(structure: seq<(String, seq<String>)>, micro: CV.Report,
                         muni: CV.MunicipalityReport, cons: IC.ConsistencyReport)
    requires forall i :: 0 <= i < |structure| ==> structure[i].1 == []
    requires forall t :: 0 <= t < |micro.ordered| ==> !Exceeds(micro.ordered[t].diff, 0.0)
    requires forall t :: 0 <= t < |muni.base.ordered| ==> !Exceeds(muni.base.ordered[t].diff, 0.0)
    requires forall t :: 0 <= t < |cons.comparison| ==> !Exceeds(cons.comparison[t].diff, 0.0)
    requires cons.unmatched == []
    ensures Entries(structure, micro, muni, cons) == Success([])
    ensures TallyAsWritten(Entries(structure, micro, muni, cons).value).Failure?
    ensures Tally(Entries(structure, micro, muni, cons).value) == SeverityTotals(0, 0, 0)
  {
    CleanChecksGiveNoEntries(structure, micro, muni, cons);
  }

  // ---------------------------------------------------------------------
  // Recommendations

  /** `categoria` of a recommendation. */
  datatype Category =
    | EncodingFix | RegionReview | SpecificFix | MunicipalityReview
    | PriorityFix | InternalFix | MappingFix | Pipeline

  /** One row of `df_recomendacoes`; `subject` is the comparison row a
      targeted recommendation is about. */
  datatype Recommendation = Recommendation(category: Category, priority: Severity, subject: Option<String>)

  /** `resultados_estrutura[name]['problemas_codificacao']`, empty when the
      table is absent. */
  function ProblemsOf(structure: seq<(String, seq<String>)>, name: String): seq<String> {
    if structure == [] then []
    else if structure[0].0 == name then structure[0].1
    else ProblemsOf(structure[1..], name)
  }

  /** `abs(row.get('diferenca', 0)) > 0` on a comparison row. */
  predicate HasDiff(c: CV.Comparison) {
    Exceeds(c.diff, 0.0)
  }

  function FixFor(c: CV.Comparison): (r: Recommendation)
    ensures r.category == SpecificFix && r.subject == c.name
    ensures r.priority == Alta <==> AbsGreater(c.pct, 5.0)
    ensures r.priority == Media <==> !AbsGreater(c.pct, 5.0)
  {
    Recommendation(SpecificFix, if AbsGreater(c.pct, 5.0) then Alta else Media, c.name)
  }

  /** The targeted fixes for the given rows: one per row with a difference. */
  function SpecificFixes(rows: seq<CV.Comparison>): (rs: seq<Recommendation>)
    ensures |rs| == Count(rows, HasDiff)
    ensures forall i :: 0 <= i < |rs| ==> rs[i].category == SpecificFix && rs[i].priority != Baixa
  {
    if rows == [] then []
    else
      var last := rows[|rows| - 1];
      SpecificFixes(rows[..|rows| - 1]) + (if HasDiff(last) then [FixFor(last)] else [])
  }

  /** The targeted fixes are, in order, the fixes of the rows with a
      difference. */
  lemma {:induction false} SpecificFixesFollowRows(rows: seq<CV.Comparison>)
    ensures |SpecificFixes(rows)| == |Filter(rows, HasDiff)|
    ensures forall i :: 0 <= i < |SpecificFixes(rows)| ==> SpecificFixes(rows)[i] == FixFor(Filter(rows, HasDiff)[i])
  {
    if rows != [] {
      SpecificFixesFollowRows(rows[..|rows| - 1]);
    }
  }

  /** `normalizar_texto(str(row.get('municipio', '')))` contains "blumenau". */
  predicate MentionsBlumenau(c: CV.Comparison) {
    Contains(Names.Normalize(Some(CellText(c.name))).value, "blumenau")
  }

  /** One Alta fix per row `mentions` picks out (the Blumenau rows),
      whatever its difference. */
  function PriorityFixes(rows: seq<CV.Comparison>, mentions: CV.Comparison -> bool): (rs: seq<Recommendation>)
    ensures |rs| == Count(rows, mentions)
    ensures forall i :: 0 <= i < |rs| ==> rs[i].category == PriorityFix && rs[i].priority == Alta
  {
    if rows == [] then []
    else
      var last := rows[|rows| - 1];
      PriorityFixes(rows[..|rows| - 1], mentions) +
        (if mentions(last) then [Recommendation(PriorityFix, Alta, last.name)] else [])
  }

  function Min(a: nat, b: nat): nat {
    if a < b then a else b
  }

  /** `head(3)`. */
  function Head3<T>(s: seq<T>): (h: seq<T>)
    ensures |h| == Min(3, |s|) && h == s[..|h|]
  {
    s[..Min(3, |s|)]
  }

  /** The recommendations of one category. */
  function InCategory(c: Category): Recommendation -> bool {
    (r: Recommendation) => r.category == c
  }

  lemma CountSingle<T>(x: T, p: T -> bool)
    ensures Count([x], p) == if p(x) then 1 else 0
  {
    assert [x][..0] == [];
  }

  /** The encoding fix is there exactly when `gold_micro` has encoding problems. */
  function EncodingRecs(structure: seq<(String, seq<String>)>): (rs: seq<Recommendation>)
    ensures forall i :: 0 <= i < |rs| ==> rs[i].category == EncodingFix && rs[i].priority == Alta
    ensures Count(rs, InCategory(EncodingFix)) == if ProblemsOf(structure, "gold_micro") != [] then 1 else 0
  {
    var fix := Recommendation(EncodingFix, Alta, None);
    CountSingle(fix, InCategory(EncodingFix));
    if ProblemsOf(structure, "gold_micro") != [] then [fix] else []
  }

  /** The region review is there exactly when the region check counted
      inconsistencies, and the targeted fixes come with it. */
  function RegionRecs(micro: CV.Report): (rs: seq<Recommendation>)
    ensures forall i :: 0 <= i < |rs| ==>
      (rs[i].category == RegionReview || rs[i].category == SpecificFix) && rs[i].priority != Baixa
    ensures Count(rs, InCategory(RegionReview)) == if micro.inconsistencies > 0 then 1 else 0
    ensures micro.inconsistencies == 0 ==> rs == []
  {
    if micro.inconsistencies > 0 then
      var review := Recommendation(RegionReview, Alta, None);
      var fixes := SpecificFixes(Head3(micro.ordered));
      CountSingle(review, InCategory(RegionReview));
      CountNone(fixes, InCategory(RegionReview));
      CountConcat([review], fixes, InCategory(RegionReview));
      [review] + fixes
    else []
  }

  /** The municipality review is there exactly when the municipality check
      counted inconsistencies, and the Blumenau fixes come with it. */
  function MunicipalityRecs(muni: CV.MunicipalityReport): (rs: seq<Recommendation>)
    ensures forall i :: 0 <= i < |rs| ==>
      (rs[i].category == MunicipalityReview || rs[i].category == PriorityFix) && rs[i].priority == Alta
    ensures Count(rs, InCategory(MunicipalityReview)) == if muni.base.inconsistencies > 0 then 1 else 0
    ensures muni.base.inconsistencies == 0 ==> rs == []
  {
    if muni.base.inconsistencies > 0 then
      var review := Recommendation(MunicipalityReview, Alta, None);
      var fixes := PriorityFixes(muni.base.ordered, MentionsBlumenau);
      CountSingle(review, InCategory(MunicipalityReview));
      CountNone(fixes, InCategory(MunicipalityReview));
      CountConcat([review], fixes, InCategory(MunicipalityReview));
      [review] + fixes
    else []
  }

  /** The internal fix is there exactly when the internal check counted
      inconsistencies, the mapping fix exactly when a municipality was left
      without a region. */
  function InternalRecs(cons: IC.ConsistencyReport): (rs: seq<Recommendation>)
    ensures forall i :: 0 <= i < |rs| ==>
      (rs[i].category == InternalFix || rs[i].category == MappingFix) && rs[i].priority == Alta
    ensures Count(rs, InCategory(InternalFix)) == if cons.inconsistencies > 0 then 1 else 0
    ensures Count(rs, InCategory(MappingFix)) == if cons.unmatched != [] then 1 else 0
  {
    var internal := Recommendation(InternalFix, Alta, None);
    var mapping := Recommendation(MappingFix, Alta, None);
    var a := if cons.inconsistencies > 0 then [internal] else [];
    var b := if cons.unmatched != [] then [mapping] else [];
    CountSingle(internal, InCategory(InternalFix));
    CountSingle(internal, InCategory(MappingFix));
    CountSingle(mapping, InCategory(InternalFix));
    CountSingle(mapping, InCategory(MappingFix));
    CountConcat(a, b, InCategory(InternalFix));
    CountConcat(a, b, InCategory(MappingFix));
    a + b
  }

  const PipelineRec: Recommendation := Recommendation(Pipeline, Media, None)

  /** The four groups before the pipeline recommendation: each review or fix
      of a whole check is there exactly when that check found something. */
  function Body(structure: seq<(String, seq<String>)>, micro: CV.Report,
                muni: CV.MunicipalityReport, cons: IC.ConsistencyReport): (rs: seq<Recommendation>)
    ensures forall i :: 0 <= i < |rs| ==> rs[i].category != Pipeline && rs[i].priority != Baixa
  {
    var a, b, c, d := EncodingRecs(structure), RegionRecs(micro), MunicipalityRecs(muni), InternalRecs(cons);
    ConcatKeeps(a, b);
    ConcatKeeps(a + b, c);
    ConcatKeeps(a + b + c, d);
    a + b + c + d
  }

  /** Before the pipeline recommendation, each review or fix of a whole check
      is there exactly when that check found something. */
  lemma BodyTriggers(structure: seq<(String, seq<String>)>, micro: CV.Report,
                     muni: CV.MunicipalityReport, cons: IC.ConsistencyReport)
    ensures Triggered(Body(structure, micro, muni, cons), ProblemsOf(structure, "gold_micro") != [],
                      micro.inconsistencies > 0, muni.base.inconsistencies > 0, cons.inconsistencies > 0,
                      cons.unmatched != [])
  {
    var a, b, c, d := EncodingRecs(structure), RegionRecs(micro), MunicipalityRecs(muni), InternalRecs(cons);
    AssembleGroups(a, b, c, d, ProblemsOf(structure, "gold_micro") != [], micro.inconsistencies > 0,
                   muni.base.inconsistencies > 0, cons.inconsistencies > 0, cons.unmatched != []);
  }

  /** The encoding fix, the region review, the municipality review, the
      internal fix and the mapping fix each occur once when their check found
      something (steps 1 to 5 of the script) and never otherwise. */
  predicate Triggered(rs: seq<Recommendation>, encoding: bool, region: bool, municipality: bool,
                      internal: bool, mapping: bool) {
    Count(rs, InCategory(EncodingFix)) == (if encoding then 1 else 0) &&
    Count(rs, InCategory(RegionReview)) == (if region then 1 else 0) &&
    Count(rs, InCategory(MunicipalityReview)) == (if municipality then 1 else 0) &&
    Count(rs, InCategory(InternalFix)) == (if internal then 1 else 0) &&
    Count(rs, InCategory(MappingFix)) == (if mapping then 1 else 0)
  }

  /** The four groups, each holding its own categories, concatenate into a
      list with every trigger of theirs. */
  lemma AssembleGroups(a: seq<Recommendation>, b: seq<Recommendation>, c: seq<Recommendation>, d: seq<Recommendation>,
                       encoding: bool, region: bool, municipality: bool, internal: bool, mapping: bool)
    requires forall i :: 0 <= i < |a| ==> a[i].category == EncodingFix
    requires forall i :: 0 <= i < |b| ==> b[i].category == RegionReview || b[i].category == SpecificFix
    requires forall i :: 0 <= i < |c| ==> c[i].category == MunicipalityReview || c[i].category == PriorityFix
    requires forall i :: 0 <= i < |d| ==> d[i].category == InternalFix || d[i].category == MappingFix
    requires Count(a, InCategory(EncodingFix)) == if encoding then 1 else 0
    requires Count(b, InCategory(RegionReview)) == if region then 1 else 0
    requires Count(c, InCategory(MunicipalityReview)) == if municipality then 1 else 0
    requires Count(d, InCategory(InternalFix)) == if internal then 1 else 0
    requires Count(d, InCategory(MappingFix)) == if mapping then 1 else 0
    ensures Triggered(a + b + c + d, encoding, region, municipality, internal, mapping)
  {
    GroupTriggers(a, b, c, d);
  }

  lemma CountFour<T>(a: seq<T>, b: seq<T>, c: seq<T>, d: seq<T>, p: T -> bool)
    ensures Count(a + b + c + d, p) == Count(a, p) + Count(b, p) + Count(c, p) + Count(d, p)
  {
    CountConcat(a + b + c, d, p);
    CountConcat(a + b, c, p);
    CountConcat(a, b, p);
  }

  /** Concatenating the four groups keeps each whole-check category's count
      from the one group that holds it. */
  lemma GroupTriggers(a: seq<Recommendation>, b: seq<Recommendation>, c: seq<Recommendation>, d: seq<Recommendation>)
    requires forall i :: 0 <= i < |a| ==> a[i].category == EncodingFix
    requires forall i :: 0 <= i < |b| ==> b[i].category == RegionReview || b[i].category == SpecificFix
    requires forall i :: 0 <= i < |c| ==> c[i].category == MunicipalityReview || c[i].category == PriorityFix
    requires forall i :: 0 <= i < |d| ==> d[i].category == InternalFix || d[i].category == MappingFix
    ensures Count(a + b + c + d, InCategory(EncodingFix)) == Count(a, InCategory(EncodingFix))
    ensures Count(a + b + c + d, InCategory(RegionReview)) == Count(b, InCategory(RegionReview))
    ensures Count(a + b + c + d, InCategory(MunicipalityReview)) == Count(c, InCategory(MunicipalityReview))
    ensures Count(a + b + c + d, InCategory(InternalFix)) == Count(d, InCategory(InternalFix))
    ensures Count(a + b + c + d, InCategory(MappingFix)) == Count(d, InCategory(MappingFix))
  {
    OnlyOne(a, b, c, d, 0, EncodingFix);
    OnlyOne(a, b, c, d, 1, RegionReview);
    OnlyOne(a, b, c, d, 2, MunicipalityReview);
    OnlyOne(a, b, c, d, 3, InternalFix);
    OnlyOne(a, b, c, d, 3, MappingFix);
  }

  /** A category found in only one of four groups counts the same in their
      concatenation as in that group. */
  lemma OnlyOne(a: seq<Recommendation>, b: seq<Recommendation>, c: seq<Recommendation>, d: seq<Recommendation>,
                k: nat, cat: Category)
    requires k < 4
    requires k != 0 ==> forall i :: 0 <= i < |a| ==> a[i].category != cat
    requires k != 1 ==> forall i :: 0 <= i < |b| ==> b[i].category != cat
    requires k != 2 ==> forall i :: 0 <= i < |c| ==> c[i].category != cat
    requires k != 3 ==> forall i :: 0 <= i < |d| ==> d[i].category != cat
    ensures Count(a + b + c + d, InCategory(cat)) == Count([a, b, c, d][k], InCategory(cat))
  {
    var p := InCategory(cat);
    CountFour(a, b, c, d, p);
    if k != 0 { CountNone(a, p); }
    if k != 1 { CountNone(b, p); }
    if k != 2 { CountNone(c, p); }
    if k != 3 { CountNone(d, p); }
  }

  predicate Ordinary(r: Recommendation) {
    r.category != Pipeline && r.priority != Baixa
  }

  lemma ConcatKeeps(a: seq<Recommendation>, b: seq<Recommendation>)
    requires forall i :: 0 <= i < |a| ==> Ordinary(a[i])
    requires forall i :: 0 <= i < |b| ==> Ordinary(b[i])
    ensures forall i :: 0 <= i < |a + b| ==> Ordinary((a + b)[i])
  {
  }

  /** `recomendacoes`, in the order the script appends them: the pipeline
      recommendation closes the list and nothing is ever Baixa. */
  function Recommendations(structure: seq<(String, seq<String>)>, micro: CV.Report,
                           muni: CV.MunicipalityReport, cons: IC.ConsistencyReport): (rs: seq<Recommendation>)
    ensures |rs| >= 1 && rs[|rs| - 1] == Recommendation(Pipeline, Media, None)
    ensures forall i :: 0 <= i < |rs| - 1 ==> rs[i].category != Pipeline
    ensures forall i :: 0 <= i < |rs| ==> rs[i].priority != Baixa
  {
    Body(structure, micro, muni, cons) + [PipelineRec]
  }

  /** Each whole-check recommendation occurs in the final list once when its
      check found something and never otherwise. */
  lemma RecommendationTriggers(structure: seq<(String, seq<String>)>, micro: CV.Report,
                               muni: CV.MunicipalityReport, cons: IC.ConsistencyReport)
    ensures Triggered(Recommendations(structure, micro, muni, cons), ProblemsOf(structure, "gold_micro") != [],
                      micro.inconsistencies > 0, muni.base.inconsistencies > 0, cons.inconsistencies > 0,
                      cons.unmatched != [])
  {
    BodyTriggers(structure, micro, muni, cons);
    PipelineAdds(Body(structure, micro, muni, cons), ProblemsOf(structure, "gold_micro") != [],
                 micro.inconsistencies > 0, muni.base.inconsistencies > 0, cons.inconsistencies > 0,
                 cons.unmatched != []);
  }

  /** The pipeline recommendation is of none of the whole-check categories,
      so appending it keeps the triggers. */
  lemma PipelineAdds(body: seq<Recommendation>, encoding: bool, region: bool, municipality: bool,
                     internal: bool, mapping: bool)
    requires Triggered(body, encoding, region, municipality, internal, mapping)
    ensures Triggered(body + [PipelineRec], encoding, region, municipality, internal, mapping)
  {
    assert (body + [PipelineRec])[..|body|] == body;
  }

  /** Appends the targeted fixes of the given rows, row by row. */
  method AppendSpecific(acc: seq<Recommendation>, rows: seq<CV.Comparison>) returns (out: seq<Recommendation>)
    ensures out == acc + SpecificFixes(rows)
  {
    out := acc;
    var i := 0;
    while i < |rows|
      invariant 0 <= i <= |rows|
      invariant out == acc + SpecificFixes(rows[..i])
    {
      assert rows[..i + 1][..i] == rows[..i];
      if Exceeds(rows[i].diff, 0.0) {
        out := out + [FixFor(rows[i])];
      }
      i := i + 1;
    }
    assert rows[..i] == rows;
  }

  /** Appends one fix per Blumenau row, row by row. */
  method AppendPriority(acc: seq<Recommendation>, rows: seq<CV.Comparison>, mentions: CV.Comparison -> bool)
    returns (out: seq<Recommendation>)
    ensures out == acc + PriorityFixes(rows, mentions)
  {
    out := acc;
    var i := 0;
    while i < |rows|
      invariant 0 <= i <= |rows|
      invariant out == acc + PriorityFixes(rows[..i], mentions)
    {
      assert rows[..i + 1][..i] == rows[..i];
      if mentions(rows[i]) {
        out := out + [Recommendation(PriorityFix, Alta, rows[i].name)];
      }
      i := i + 1;
    }
    assert rows[..i] == rows;
  }

  /** The recommendation steps: the three largest region gaps, then every
      Blumenau row. */
  method Recommend(structure: seq<(String, seq<String>)>, micro: CV.Report,
                   muni: CV.MunicipalityReport, cons: IC.ConsistencyReport) returns (rs: seq<Recommendation>)
    ensures rs == Recommendations(structure, micro, muni, cons)
  {
    var a := EncodingRecs(structure);
    var b: seq<Recommendation> := [];
    if micro.inconsistencies > 0 {
      b := AppendSpecific([Recommendation(RegionReview, Alta, None)], Head3(micro.ordered));
    }
    var c: seq<Recommendation> := [];
    if muni.base.inconsistencies > 0 {
      c := AppendPriority([Recommendation(MunicipalityReview, Alta, None)], muni.base.ordered, MentionsBlumenau);
    }
    assert b == RegionRecs(micro);
    assert c == MunicipalityRecs(muni);
    rs := a + b + c + InternalRecs(cons) + [PipelineRec];
  }

  predicate IsSpecific(r: Recommendation) { r.category == SpecificFix }
  predicate IsPipeline(r: Recommendation) { r.category == Pipeline }
  predicate IsPriority(r: Recommendation) { r.category == PriorityFix }

  lemma CountAll<T>(s: seq<T>, p: T -> bool)
    requires forall i :: 0 <= i < |s| ==> p(s[i])
    ensures Count(s, p) == |s|
  {
    CountBelow(s, p, |s|);
  }

  lemma CountNone<T>(s: seq<T>, p: T -> bool)
    requires forall i :: 0 <= i < |s| ==> !p(s[i])
    ensures Count(s, p) == 0
  {
    CountPositive(s, p);
  }

  /** The count of `p` over the five groups of recommendations. */
  lemma CountRecommendations(structure: seq<(String, seq<String>)>, micro: CV.Report,
                             muni: CV.MunicipalityReport, cons: IC.ConsistencyReport, p: Recommendation -> bool)
    ensures Count(Recommendations(structure, micro, muni, cons), p) ==
      Count(EncodingRecs(structure), p) + Count(RegionRecs(micro), p) + Count(MunicipalityRecs(muni), p) +
      Count(InternalRecs(cons), p) + Count([PipelineRec], p)
  {
    var a, b, c, d := EncodingRecs(structure), RegionRecs(micro), MunicipalityRecs(muni), InternalRecs(cons);
    CountConcat(a + b + c + d, [PipelineRec], p);
    CountConcat(a + b + c, d, p);
    CountConcat(a + b, c, p);
    CountConcat(a, b, p);
  }

  /** "Pipeline de Dados" is always there, exactly once. */
  lemma PipelineOnce(structure: seq<(String, seq<String>)>, micro: CV.Report,
                     muni: CV.MunicipalityReport, cons: IC.ConsistencyReport)
    ensures Count(Recommendations(structure, micro, muni, cons), IsPipeline) == 1
  {
    var body := Body(structure, micro, muni, cons);
    CountNone(body, IsPipeline);
    CountConcat(body, [PipelineRec], IsPipeline);
    assert [PipelineRec][..0] == [];
  }

  /** Targeted region fixes come only from the first three sorted rows, only
      when the region check counted inconsistencies, one per row with a
      difference. */
  lemma SpecificFixesFromTopRows(structure: seq<(String, seq<String>)>, micro: CV.Report,
                                 muni: CV.MunicipalityReport, cons: IC.ConsistencyReport)
    ensures var n := Count(Recommendations(structure, micro, muni, cons), IsSpecific);
      n <= 3 && (n > 0 ==> micro.inconsistencies > 0) &&
      (micro.inconsistencies > 0 ==> n == Count(Head3(micro.ordered), HasDiff))
  {
    var a, b, c, d := EncodingRecs(structure), RegionRecs(micro), MunicipalityRecs(muni), InternalRecs(cons);
    assert Recommendations(structure, micro, muni, cons) == a + b + c + d + [PipelineRec];
    FromOneGroup(a, b, c, d, IsSpecific, 1);
    RegionSpecific(micro);
  }

  /** A kind of recommendation that only one group can hold counts, in the
      final list, as in that group. */
  lemma FromOneGroup(a: seq<Recommendation>, b: seq<Recommendation>, c: seq<Recommendation>, d: seq<Recommendation>,
                     p: Recommendation -> bool, k: nat)
    requires k < 4 && !p(PipelineRec)
    requires k != 0 ==> forall i :: 0 <= i < |a| ==> !p(a[i])
    requires k != 1 ==> forall i :: 0 <= i < |b| ==> !p(b[i])
    requires k != 2 ==> forall i :: 0 <= i < |c| ==> !p(c[i])
    requires k != 3 ==> forall i :: 0 <= i < |d| ==> !p(d[i])
    ensures Count(a + b + c + d + [PipelineRec], p) == Count([a, b, c, d][k], p)
  {
    CountConcat(a + b + c + d, [PipelineRec], p);
    CountSingle(PipelineRec, p);
    CountFour(a, b, c, d, p);
    if k != 0 { CountNone(a, p); }
    if k != 1 { CountNone(b, p); }
    if k != 2 { CountNone(c, p); }
    if k != 3 { CountNone(d, p); }
  }

  lemma RegionSpecific(micro: CV.Report)
    ensures Count(RegionRecs(micro), IsSpecific) ==
      if micro.inconsistencies > 0 then Count(Head3(micro.ordered), HasDiff) else 0
  {
    if micro.inconsistencies > 0 {
      var fixes := SpecificFixes(Head3(micro.ordered));
      CountConcat([Recommendation(RegionReview, Alta, None)], fixes, IsSpecific);
      assert [Recommendation(RegionReview, Alta, None)][..0] == [];
      CountAll(fixes, IsSpecific);
    }
  }

  /** In a region report whose rows are sorted by percentage and have both
      counts, the rows with a difference come first, so the first three
      rows hold min(3, total_inconsistencias) of them. */
  lemma TopRowsHoldGaps(micro: CV.Report)
    requires Sorted(micro.ordered, CV.ByPct)
    requires forall t :: 0 <= t < |micro.ordered| ==> CV.BothPresent(micro.ordered[t]) && CV.Derived(micro.ordered[t])
    requires micro.inconsistencies == Count(micro.ordered, CV.Inconsistent)
    ensures Count(Head3(micro.ordered), HasDiff) == Min(3, micro.inconsistencies)
  {
    var ordered := micro.ordered;
    forall i, j | 0 <= i < j < |ordered| && HasDiff(ordered[j]) ensures HasDiff(ordered[i]) {
      DiffFirst(ordered, i, j);
    }
    PrefixCount(ordered, HasDiff, Min(3, |ordered|));
    SameCount(ordered);
  }

  /** For a region report as the cross validation produces it, the targeted
      fixes are exactly the first min(3, total_inconsistencias) rows. */
  lemma SpecificFixesAreTopGaps(structure: seq<(String, seq<String>)>, gold: seq<CV.GoldRow>,
                                tabnet: seq<CV.TabnetRow>, muni: CV.MunicipalityReport,
                                cons: IC.ConsistencyReport)
    ensures var r := CV.ValidateByRegion(gold, tabnet);
      r.Success? ==> Count(Recommendations(structure, r.value, muni, cons), IsSpecific) == Min(3, r.value.inconsistencies)
  {
    var r := CV.ValidateByRegion(gold, tabnet);
    if r.Success? {
      assert r == CV.Reconcile(gold, tabnet, CV.RegionMarkers);
      ReconciledTopGaps(structure, r.value, muni, cons);
    }
  }

  lemma ReconciledTopGaps(structure: seq<(String, seq<String>)>, micro: CV.Report,
                          muni: CV.MunicipalityReport, cons: IC.ConsistencyReport)
    requires Sorted(micro.ordered, CV.ByPct)
    requires multiset(micro.ordered) == multiset(Filter(micro.full, CV.BothPresent))
    requires forall t :: 0 <= t < |micro.full| ==> CV.Derived(micro.full[t])
    requires micro.inconsistencies == Count(micro.ordered, CV.Inconsistent)
    ensures Count(Recommendations(structure, micro, muni, cons), IsSpecific) == Min(3, micro.inconsistencies)
  {
    SpecificFixesFromTopRows(structure, micro, muni, cons);
    OrderedRowsDerived(micro);
    TopRowsHoldGaps(micro);
  }

  /** The sorted rows of a region report have both counts and derived columns. */
  lemma OrderedRowsDerived(micro: CV.Report)
    requires multiset(micro.ordered) == multiset(Filter(micro.full, CV.BothPresent))
    requires forall t :: 0 <= t < |micro.full| ==> CV.Derived(micro.full[t])
    ensures forall t :: 0 <= t < |micro.ordered| ==> CV.BothPresent(micro.ordered[t]) && CV.Derived(micro.ordered[t])
  {
    var valid := Filter(micro.full, CV.BothPresent);
    forall t | 0 <= t < |micro.ordered|
      ensures CV.BothPresent(micro.ordered[t]) && CV.Derived(micro.ordered[t])
    {
      assert micro.ordered[t] in multiset(valid);
      var k :| 0 <= k < |valid| && valid[k] == micro.ordered[t];
      assert valid[k] in multiset(micro.full);
      var q :| 0 <= q < |micro.full| && micro.full[q] == valid[k];
    }
  }

  /** For a row with both counts, a difference is a non-zero percentage. */
  lemma DiffIsPct(c: CV.Comparison)
    requires CV.BothPresent(c) && CV.Derived(c)
    ensures HasDiff(c) <==> AbsGreater(c.pct, 0.0)
  {
    var a, b := c.gold.value, c.tabnet.value;
    if b != 0 {
      var v := c.pct.value;
      assert v * (b as real) == ((a - b) as real) * 100.0;
      if v == 0.0 {
        assert a - b == 0;
      }
    }
  }

  /** In the sorted rows no row with a difference follows one without. */
  lemma DiffFirst(ordered: seq<CV.Comparison>, i: nat, j: nat)
    requires Sorted(ordered, CV.ByPct) && i < j < |ordered|
    requires forall t :: 0 <= t < |ordered| ==> CV.BothPresent(ordered[t]) && CV.Derived(ordered[t])
    requires HasDiff(ordered[j])
    ensures HasDiff(ordered[i])
  {
    DiffIsPct(ordered[i]);
    DiffIsPct(ordered[j]);
    assert CV.ByPct(ordered[i], ordered[j]);
    if !HasDiff(ordered[i]) {
      BeforeRespectsThreshold(ordered[j].pct, ordered[i].pct, 0.0);
    }
  }

  /** When the rows satisfying `p` come first, any prefix holds as many of
      them as fit. */
  lemma PrefixCount<T>(s: seq<T>, p: T -> bool, k: nat)
    requires k <= |s|
    requires forall i, j :: 0 <= i < j < |s| && p(s[j]) ==> p(s[i])
    ensures Count(s[..k], p) == Min(k, Count(s, p))
  {
    var c := Count(s, p);
    PrefixRun(s, p);
    var m := Min(k, c);
    assert forall i :: 0 <= i < m ==> p(s[..k][i]);
    assert forall i :: m <= i < k ==> !p(s[..k][i]);
    CountBelow(s[..k], p, m);
    CountAtMost(s[..k], p, m);
  }

  /** When the rows satisfying `p` come first, they are exactly the first
      `Count(s, p)` rows. */
  lemma {:induction false} PrefixRun<T>(s: seq<T>, p: T -> bool)
    requires forall i, j :: 0 <= i < j < |s| && p(s[j]) ==> p(s[i])
    ensures forall i :: 0 <= i < |s| ==> (p(s[i]) <==> i < Count(s, p))
  {
    if s != [] {
      var init := s[..|s| - 1];
      assert forall i :: 0 <= i < |init| ==> init[i] == s[i];
      PrefixRun(init, p);
      if p(s[|s| - 1]) {
        assert forall i :: 0 <= i < |init| ==> p(init[i]);
        CountAll(init, p);
      }
    }
  }

  /** `total_inconsistencias` (|d| > 0.01) and the fix rule (|d| > 0) count the
      same rows. */
  lemma SameCount(ordered: seq<CV.Comparison>)
    ensures Count(ordered, CV.Inconsistent) == Count(ordered, HasDiff)
  {
    forall t | 0 <= t < |ordered| ensures CV.Inconsistent(ordered[t]) <==> HasDiff(ordered[t]) {
      ExceedsMeansDiffers(ordered[t].diff);
    }
    CountMonotone(ordered, CV.Inconsistent, HasDiff);
    CountMonotone(ordered, HasDiff, CV.Inconsistent);
  }

  /** One "Correção Prioritária" per Blumenau row when the municipal check
      counted inconsistencies, none otherwise. */
  lemma BlumenauFixes(structure: seq<(String, seq<String>)>, micro: CV.Report,
                      muni: CV.MunicipalityReport, cons: IC.ConsistencyReport)
    ensures Count(Recommendations(structure, micro, muni, cons), IsPriority) ==
      if muni.base.inconsistencies > 0 then Count(muni.base.ordered, MentionsBlumenau) else 0
  {
    var a, b, c, d := EncodingRecs(structure), RegionRecs(micro), MunicipalityRecs(muni), InternalRecs(cons);
    assert Recommendations(structure, micro, muni, cons) == a + b + c + d + [PipelineRec];
    FromOneGroup(a, b, c, d, IsPriority, 2);
    MunicipalityPriority(muni);
  }

  lemma MunicipalityPriority(muni: CV.MunicipalityReport)
    ensures Count(MunicipalityRecs(muni), IsPriority) ==
      if muni.base.inconsistencies > 0 then Count(muni.base.ordered, MentionsBlumenau) else 0
  {
    if muni.base.inconsistencies > 0 {
      var fixes := PriorityFixes(muni.base.ordered, MentionsBlumenau);
      CountConcat([Recommendation(MunicipalityReview, Alta, None)], fixes, IsPriority);
      assert [Recommendation(MunicipalityReview, Alta, None)][..0] == [];
      CountAll(fixes, IsPriority);
    }
  }

  // ---------------------------------------------------------------------
  // The report

  /** What `gerar_relatorio_consolidado` returns: the inconsistencies, the
      severity counts and the recommendations. */
  datatype ConsolidatedReport = ConsolidatedReport(
    entries: seq<Entry>, totals: SeverityTotals, recommendations: seq<Recommendation>)

  /** The consolidated report; it fails only where a problem message does
      not split in two, and a clean validation gives zero counts. */
  function Consolidate(structure: seq<(String, seq<String>)>, micro: CV.Report,
                       muni: CV.MunicipalityReport, cons: IC.ConsistencyReport): (r: Result<ConsolidatedReport, String>)
    ensures r.Failure? <==> EncodingEntries(structure).Failure?
    ensures r.Success? ==> r.value.totals.alta + r.value.totals.media + r.value.totals.baixa == |r.value.entries|
    ensures r.Success? ==> r.value.entries == Entries(structure, micro, muni, cons).value
  {
    match Entries(structure, micro, muni, cons)
    case Failure(e) => Failure(e)
    case Success(es) =>
      TallyCoversAll(es);
      Success(ConsolidatedReport(es, Tally(es), Recommendations(structure, micro, muni, cons)))
  }

  /** The report as the script builds it, where an empty list of
      inconsistencies stops it at the severity counts. */
  function ConsolidateAsWritten(structure: seq<(String, seq<String>)>, micro: CV.Report,
                                muni: CV.MunicipalityReport, cons: IC.ConsistencyReport): (r: Result<ConsolidatedReport, String>)
    ensures r.Failure? <==> EncodingEntries(structure).Failure? || Entries(structure, micro, muni, cons) == Success([])
  {
    match Entries(structure, micro, muni, cons)
    case Failure(e) => Failure(e)
    case Success(es) =>
      match TallyAsWritten(es)
      case Failure(e) => Failure(e)
      case Success(t) => Success(ConsolidatedReport(es, t, Recommendations(structure, micro, muni, cons)))
  }

  /** The two agree whenever there is at least one inconsistency; they part
      ways exactly on the clean validation. */
  lemma AsWrittenAgreesWhenSomethingIsFound(structure: seq<(String, seq<String>)>, micro: CV.Report,
                                            muni: CV.MunicipalityReport, cons: IC.ConsistencyReport)
    ensures ConsolidateAsWritten(structure, micro, muni, cons) != Consolidate(structure, micro, muni, cons) <==>
      Entries(structure, micro, muni, cons) == Success([])
  {
  }
}
