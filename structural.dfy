/** The structural check that runs before any reconciliation: a TABNET export
    read as one text column is cut at its header line and split on ';' into a
    label column and a quantity column, and every table gets its row count,
    its per-column missing-value counts and the list of text columns in which
    some value carries a mis-decoded accented capital (Ã, Â, Í, Ú, Ó, Ç). */
module Structural {
  import opened Wrappers
  import opened Text
  import opened Seqs

  /** A pandas cell: missing, text, or a number. */
  datatype Cell = Null | Str(s: String) | Num(n: int)

  /** `object` columns hold text; numeric columns hold numbers. */
  datatype Dtype = ObjectDtype | NumericDtype

  datatype Column = Column(name: String, dtype: Dtype, cells: seq<Cell>)

  datatype Frame = Frame(columns: seq<Column>, height: nat)

  /** Which TABNET export a table is: it decides the label column's name. */
  datatype TabnetKind = Microrregiao | Municipio

  predicate WellFormed(f: Frame) {
    forall i :: 0 <= i < |f.columns| ==> |f.columns[i].cells| == f.height
  }

  /** `str(value)`: a missing value prints as "nan". */
  function Show(c: Cell): String {
    match c
    case Null => "nan"
    case Str(s) => s
    case Num(n) => if n >= 0 then NatToDecimal(n) else "-" + NatToDecimal(-n)
  }

  // ---------------------------------------------------------------------
  // Cutting a TABNET export at its header

  const MicroHeader: String := "Microrregião IBGE;\"Quantidade\""
  const MunicipioHeader: String := "Município;\"Quantidade\""

  /** Either header marker counts, whatever the kind of export. */
  predicate IsHeader(c: Cell) {
    Contains(Show(c), MicroHeader) || Contains(Show(c), MunicipioHeader)
  }

  /** Position of the first header line. */
  function FirstHeader(lines: seq<Cell>): (r: Option<nat>)
    ensures r.None? <==> forall k :: 0 <= k < |lines| ==> !IsHeader(lines[k])
    ensures r.Some? ==> r.value < |lines| && IsHeader(lines[r.value])
    ensures r.Some? ==> forall k :: 0 <= k < r.value ==> !IsHeader(lines[k])
  {
    if lines == [] then None
    else if IsHeader(lines[0]) then Some(0)
    else match FirstHeader(lines[1..])
      case None => None
      case Some(i) => Some(i + 1)
  }

  /** A header line with none before it is the first one. */
  lemma {:induction false} FirstHeaderAt(lines: seq<Cell>, i: nat)
    requires i < |lines| && IsHeader(lines[i])
    requires forall k :: 0 <= k < i ==> !IsHeader(lines[k])
    ensures FirstHeader(lines) == Some(i)
    decreases i
  {
    if i > 0 {
      var rest := lines[1..];
      forall k | 0 <= k < i - 1 ensures !IsHeader(rest[k]) {
        assert rest[k] == lines[k + 1];
      }
      assert rest[i - 1] == lines[i];
      FirstHeaderAt(rest, i - 1);
      assert !IsHeader(lines[0]);
    }
  }

  /** The search loop that stops at the first header line. */
  method FindHeader(lines: seq<Cell>) returns (idx: Option<nat>)
    ensures idx == FirstHeader(lines)
  {
    var i := 0;
    while i < |lines|
      invariant 0 <= i <= |lines|
      invariant forall k :: 0 <= k < i ==> !IsHeader(lines[k])
    {
      if IsHeader(lines[i]) {
        FirstHeaderAt(lines, i);
        return Some(i);
      }
      i := i + 1;
    }
    return None;
  }

  /** The lines after the header of a one-column table that has one. */
  function DataLines(f: Frame): (r: Option<seq<Cell>>)
    ensures r.Some? <==> |f.columns| == 1 && FirstHeader(f.columns[0].cells).Some?
    ensures r.Some? ==> r.value == f.columns[0].cells[FirstHeader(f.columns[0].cells).value + 1..]
  {
    if |f.columns| != 1 then None
    else match FirstHeader(f.columns[0].cells)
      case None => None
      case Some(h) => Some(f.columns[0].cells[h + 1..])
  }

  /** `str.split(';')` of a line; a line that is not text splits into nothing. */
  function Parts(c: Cell): seq<String> {
    if c.Str? then Split(c.s, ';') else []
  }

  /** The largest of `ns`, 0 for none. */
  function Widest(ns: seq<nat>): (w: nat)
    ensures forall i :: 0 <= i < |ns| ==> ns[i] <= w
    ensures w == 0 || exists i :: 0 <= i < |ns| && ns[i] == w
  {
    if ns == [] then 0
    else
      var init := ns[..|ns| - 1];
      var w0 := Widest(init);
      assert forall i :: 0 <= i < |init| ==> init[i] == ns[i];
      if ns[|ns| - 1] > w0 then ns[|ns| - 1] else w0
  }

  /** Number of columns `split(';', expand=True)` produces: the most parts
      of any line. */
  function Width(lines: seq<Cell>): (w: nat)
    ensures forall i :: 0 <= i < |lines| ==> |Parts(lines[i])| <= w
    ensures w == 0 || exists i :: 0 <= i < |lines| && |Parts(lines[i])| == w
  {
    var ns := seq(|lines|, i requires 0 <= i < |lines| => |Parts(lines[i])|);
    var w := Widest(ns);
    assert forall i :: 0 <= i < |lines| ==> ns[i] == |Parts(lines[i])|;
    w
  }

  /** `pd.to_numeric(x, errors="coerce")` on one part: unparsable text is missing. */
  function Quantity(t: String): Cell {
    match ParseInt(t)
    case Some(v) => Num(v)
    case None => Null
  }

  function LabelName(kind: TabnetKind): String {
    if kind == Microrregiao then "Microrregião IBGE" else "Município"
  }

  /** `lab` and `quantity` are what the two-column split makes of `line`:
      the label is the text up to the first ';' (all of it when there is
      none, and the quantity is then missing), the quantity is the text after
      that ';' read as a number; a line that is not text gives two missing
      cells. */
  predicate SplitRow(line: Cell, lab: Cell, quantity: Cell) {
    if line.Str? then
      lab.Str? && IsPrefix(lab.s, line.s) && ';' !in lab.s &&
      (|lab.s| == |line.s| ==> quantity == Null) &&
      (|lab.s| < |line.s| ==>
        line.s[|lab.s|] == ';' && quantity == Quantity(line.s[|lab.s| + 1..]))
    else
      lab == Null && quantity == Null
  }

  /** `g` is the two-column table made from `lines`, one row per line. */
  predicate SplitOf(lines: seq<Cell>, kind: TabnetKind, g: Frame) {
    g.height == |lines| && WellFormed(g) && |g.columns| == 2 &&
    g.columns[0].name == LabelName(kind) && g.columns[0].dtype == ObjectDtype &&
    g.columns[1].name == "Quantidade" && g.columns[1].dtype == NumericDtype &&
    forall k :: 0 <= k < |lines| ==> SplitRow(lines[k], g.columns[0].cells[k], g.columns[1].cells[k])
  }

  function LabelCell(line: Cell): Cell {
    var parts := Parts(line);
    if parts == [] then Null else Str(parts[0])
  }

  function QuantityCell(line: Cell): Cell {
    var parts := Parts(line);
    if |parts| == 2 then Quantity(parts[1]) else Null
  }

  lemma SplitLine(line: Cell)
    requires |Parts(line)| <= 2
    ensures SplitRow(line, LabelCell(line), QuantityCell(line))
  {
    if line.Str? {
      var parts := Parts(line);
      if |parts| == 2 {
        assert JoinWith(parts[1..], ';') == parts[1];
        assert line.s == parts[0] + [';'] + parts[1];
        assert line.s[|parts[0]| + 1..] == parts[1];
      } else {
        assert line.s == parts[0];
      }
    }
  }

  /** The renamed two-column table, quantities converted. */
  function SplitFrame(lines: seq<Cell>, kind: TabnetKind): (g: Frame)
    requires forall i :: 0 <= i < |lines| ==> |Parts(lines[i])| <= 2
    ensures SplitOf(lines, kind, g)
  {
    var labels := seq(|lines|, k requires 0 <= k < |lines| => LabelCell(lines[k]));
    var quantities := seq(|lines|, k requires 0 <= k < |lines| => QuantityCell(lines[k]));
    forall k | 0 <= k < |lines|
      ensures SplitRow(lines[k], labels[k], quantities[k])
    {
      SplitLine(lines[k]);
    }
    Frame([Column(LabelName(kind), ObjectDtype, labels), Column("Quantidade", NumericDtype, quantities)], |lines|)
  }

  /** What `processar_tabnet` returns: the input itself unless it is one
      column with a header line and the lines after it split into exactly two
      columns; more than two columns cannot take the two new names and the
      step fails. */
  function Processed(f: Frame, kind: TabnetKind): (r: Result<Frame, String>)
    ensures DataLines(f).None? ==> r == Success(f)
    ensures DataLines(f).Some? && Width(DataLines(f).value) < 2 ==> r == Success(f)
    ensures r.Failure? <==> DataLines(f).Some? && Width(DataLines(f).value) > 2
    ensures DataLines(f).Some? && Width(DataLines(f).value) == 2 ==>
      r.Success? && SplitOf(DataLines(f).value, kind, r.value)
  {
    match DataLines(f)
    case None => Success(f)
    case Some(lines) =>
      var w := Width(lines);
      if w < 2 then Success(f)
      else if w > 2 then Failure("Length mismatch")
      else Success(SplitFrame(lines, kind))
  }

  /** `processar_tabnet`, with its search loop. */
  method ProcessTabnet(f: Frame, kind: TabnetKind) returns (r: Result<Frame, String>)
    ensures r == Processed(f, kind)
  {
    if |f.columns| != 1 {
      return Success(f);
    }
    var h := FindHeader(f.columns[0].cells);
    if h.None? {
      return Success(f);
    }
    var lines := f.columns[0].cells[h.value + 1..];
    assert DataLines(f) == Some(lines);
    var w := Width(lines);
    if w < 2 {
      r := Success(f);
    } else if w > 2 {
      r := Failure("Length mismatch");
    } else {
      r := Success(SplitFrame(lines, kind));
    }
  }

  /** A two-column result keeps exactly the lines after the header. */
  lemma SplitKeepsLinesAfterHeader(f: Frame, kind: TabnetKind)
    requires WellFormed(f) && DataLines(f).Some? && Width(DataLines(f).value) == 2
    ensures Processed(f, kind).Success?
    ensures Processed(f, kind).value.height == f.height - FirstHeader(f.columns[0].cells).value - 1
  {
  }

  // ---------------------------------------------------------------------
  // Per-table counters

  const MojibakeMarkers: set<char> := {'Ã', 'Â', 'Í', 'Ú', 'Ó', 'Ç'}

  /** `astype(str).str.contains('Ã|Â|Í|Ú|Ó|Ç')` for one cell. */
  predicate HasMojibake(c: Cell) {
    exists i :: 0 <= i < |Show(c)| && Show(c)[i] in MojibakeMarkers
  }

  predicate IsNull(c: Cell) {
    c.Null?
  }

  function MojibakeCount(col: Column): nat {
    Count(col.cells, HasMojibake)
  }

  /** A text column with at least one suspicious value. */
  predicate Flagged(col: Column) {
    col.dtype == ObjectDtype && MojibakeCount(col) > 0
  }

  /** The phrase after the count. */
  const ProblemSuffix: String := " valores com possíveis problemas de codificação"

  /** The message `"{col}: {n} valores com possíveis problemas de codificação"`. */
  function ProblemText(name: String, n: nat): String {
    name + ": " + NatToDecimal(n) + ProblemSuffix
  }

  function ProblemOf(col: Column): String {
    ProblemText(col.name, MojibakeCount(col))
  }

  /** `problemas_codificacao`: one message per flagged column, in column order. */
  function Problems(cols: seq<Column>): (ps: seq<String>)
    ensures |ps| == Count(cols, Flagged)
  {
    if cols == [] then []
    else
      var last := cols[|cols| - 1];
      Problems(cols[..|cols| - 1]) + (if Flagged(last) then [ProblemOf(last)] else [])
  }

  /** Every message names a flagged column with its count, and every flagged
      column has its message. */
  lemma {:induction false} ProblemsAreFlaggedColumns(cols: seq<Column>)
    ensures forall p :: p in Problems(cols) ==> exists i :: 0 <= i < |cols| && Flagged(cols[i]) && p == ProblemOf(cols[i])
    ensures forall i :: 0 <= i < |cols| && Flagged(cols[i]) ==> ProblemOf(cols[i]) in Problems(cols)
  {
    if cols != [] {
      var init := cols[..|cols| - 1];
      ProblemsAreFlaggedColumns(init);
      assert forall i :: 0 <= i < |init| ==> init[i] == cols[i];
    }
  }

  /** The message loop over the text columns. */
  method EncodingProblems(cols: seq<Column>) returns (ps: seq<String>)
    ensures ps == Problems(cols)
  {
    ps := [];
    var i := 0;
    while i < |cols|
      invariant 0 <= i <= |cols|
      invariant ps == Problems(cols[..i])
    {
      assert cols[..i + 1][..i] == cols[..i];
      if cols[i].dtype == ObjectDtype {
        var n := MojibakeCount(cols[i]);
        if n > 0 {
          ps := ps + [ProblemText(cols[i].name, n)];
        }
      }
      i := i + 1;
    }
    assert cols[..i] == cols;
  }

  /** What `validar_estrutura` records for one table. */
  datatype FrameReport = FrameReport(
    rows: nat,
    columns: seq<String>,
    nulls: seq<(String, nat)>,
    dtypes: seq<(String, Dtype)>,
    problems: seq<String>)

  /** `valores_nulos`: one count of missing cells per column, positive
      exactly when the column has a missing cell. */
  function NullCounts(cols: seq<Column>): (r: seq<(String, nat)>)
    ensures |r| == |cols|
    ensures forall i :: 0 <= i < |cols| ==> r[i].0 == cols[i].name && r[i].1 <= |cols[i].cells|
    ensures forall i :: 0 <= i < |cols| ==> r[i].1 == Count(cols[i].cells, IsNull)
    ensures forall i :: 0 <= i < |cols| ==>
      (r[i].1 > 0 <==> exists j :: 0 <= j < |cols[i].cells| && cols[i].cells[j].Null?)
  {
    assert forall i :: 0 <= i < |cols| ==>
      (Count(cols[i].cells, IsNull) > 0 <==> exists j :: 0 <= j < |cols[i].cells| && cols[i].cells[j].Null?)
    by {
      forall i | 0 <= i < |cols| ensures
        Count(cols[i].cells, IsNull) > 0 <==> exists j :: 0 <= j < |cols[i].cells| && cols[i].cells[j].Null?
      {
        CountPositive(cols[i].cells, IsNull);
      }
    }
    seq(|cols|, i requires 0 <= i < |cols| => (cols[i].name, Count(cols[i].cells, IsNull)))
  }

  function Report(f: Frame): (r: FrameReport)
    ensures r.rows == f.height && |r.columns| == |f.columns| && |r.nulls| == |f.columns|
    ensures forall i :: 0 <= i < |f.columns| ==> r.columns[i] == f.columns[i].name
    ensures r.nulls == NullCounts(f.columns) && r.problems == Problems(f.columns)
    ensures WellFormed(f) ==> forall i :: 0 <= i < |r.nulls| ==> r.nulls[i].1 <= r.rows
    ensures |r.problems| <= |f.columns|
  {
    FrameReport(
      f.height,
      seq(|f.columns|, i requires 0 <= i < |f.columns| => f.columns[i].name),
      NullCounts(f.columns),
      seq(|f.columns|, i requires 0 <= i < |f.columns| => (f.columns[i].name, f.columns[i].dtype)),
      Problems(f.columns))
  }

  /** One table's report, its message list built by the loop. */
  method Examine(f: Frame) returns (r: FrameReport)
    ensures r == Report(f)
  {
    var ps := EncodingProblems(f.columns);
    r := FrameReport(
      f.height,
      seq(|f.columns|, i requires 0 <= i < |f.columns| => f.columns[i].name),
      NullCounts(f.columns),
      seq(|f.columns|, i requires 0 <= i < |f.columns| => (f.columns[i].name, f.columns[i].dtype)),
      ps);
  }

  /** `dataframes[name] = processar_tabnet(dataframes[name], kind)` when the
      table is there. */
  function Reprocessed(frames: map<String, Frame>, name: String, kind: TabnetKind): (r: Result<map<String, Frame>, String>)
    ensures name !in frames ==> r == Success(frames)
    ensures r.Success? ==> r.value.Keys == frames.Keys
    ensures r.Success? ==> forall n :: n in frames && n != name ==> r.value[n] == frames[n]
    ensures name in frames ==> (r.Success? <==> Processed(frames[name], kind).Success?)
    ensures name in frames && r.Success? ==> r.value[name] == Processed(frames[name], kind).value
  {
    if name !in frames then Success(frames)
    else match Processed(frames[name], kind)
      case Failure(e) => Failure(e)
      case Success(g) => Success(frames[name := g])
  }

  function Reports(frames: map<String, Frame>): (r: map<String, FrameReport>)
    ensures r.Keys == frames.Keys
  {
    map n | n in frames :: Report(frames[n])
  }

  /** The dictionary of loaded tables, which the structural check rewrites
      in place. */
  class Catalog {
    var frames: map<String, Frame>

    constructor (frames: map<String, Frame>)
      ensures this.frames == frames
    {
      this.frames := frames;
    }

    /** Replaces one TABNET table by its processed form; a failing split
        leaves the dictionary as it was. */
    method Reprocess(name: String, kind: TabnetKind) returns (ok: bool)
      modifies this
      ensures ok <==> Reprocessed(old(frames), name, kind).Success?
      ensures ok ==> frames == Reprocessed(old(frames), name, kind).value
      ensures !ok ==> frames == old(frames)
    {
      if name in frames {
        var r := ProcessTabnet(frames[name], kind);
        if r.Failure? {
          return false;
        }
        frames := frames[name := r.value];
      }
      return true;
    }

    /** `validar_estrutura`: both TABNET tables are processed first (the
        regional one before the municipal one, so a failure in the second
        keeps the first rewritten), then every table is examined. */
    method ValidateStructure() returns (r: Result<map<String, FrameReport>, String>)
      modifies this
      ensures var step := Reprocessed(old(frames), "tabnet_micro", Microrregiao);
        step.Failure? ==> r.Failure? && frames == old(frames)
      ensures var step := Reprocessed(old(frames), "tabnet_micro", Microrregiao);
        step.Success? ==>
          var last := Reprocessed(step.value, "tabnet_municipio", Municipio);
          (last.Failure? ==> r.Failure? && frames == step.value) &&
          (last.Success? ==> r == Success(Reports(frames)) && frames == last.value)
    {
      var ok := Reprocess("tabnet_micro", Microrregiao);
      if !ok {
        return Failure("Length mismatch");
      }
      ok := Reprocess("tabnet_municipio", Municipio);
      if !ok {
        return Failure("Length mismatch");
      }
      var results := ExamineAll(frames);
      return Success(results);
    }
  }

  /** The loop over the tables of the dictionary. */
  method ExamineAll(frames: map<String, Frame>) returns (results: map<String, FrameReport>)
    ensures results == Reports(frames)
  {
    results := map[];
    var todo := frames.Keys;
    while todo != {}
      invariant todo <= frames.Keys
      invariant results.Keys == frames.Keys - todo
      invariant forall n :: n in results ==> results[n] == Report(frames[n])
      decreases todo
    {
      var n :| n in todo;
      var report := Examine(frames[n]);
      results := results[n := report];
      todo := todo - {n};
    }
  }
}
