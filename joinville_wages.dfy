/** `demanda1`: the average remuneration of the formal jobs of Joinville, per
    sector and split between industry and the rest. The CSV is read as text,
    every cell trimmed, the CNAE codes zero-padded to seven characters and the
    remuneration converted from decimal-comma text to a number; rows whose
    remuneration does not convert are dropped. A job is industrial when the
    division of its CNAE code (its first two characters) is one of 05-33,
    35-39 or 41-43. */
module JoinvilleWages {
  import opened Wrappers
  import opened Text
  import opened Seqs
  import opened Grouping

  /** A row of the CSV read with `dtype=str`: `nm_mun`, `cnae`,
      `nu_remuneracao` and `setor`, each possibly missing. */
  datatype Record = Record(mun: Option<String>, cnae: Option<String>, pay: Option<String>, sector: Option<String>)

  /** A row once `nu_remuneracao` is numeric: missing where it did not convert. */
  datatype Wage = Wage(mun: Option<String>, cnae: Option<String>, pay: Option<real>, sector: Option<String>)

  /** The two sheets: `Setor`/`Valor` and `Grande Setor`/`Valor`. A missing
      value is pandas' NaN. */
  datatype Analysis = Analysis(bySector: seq<(String, Option<real>)>, comparison: seq<(String, Option<real>)>)

  const Expected: set<String> := {"nm_mun", "cnae", "nu_remuneracao", "setor"}

  const CnaeWidth: nat := 7

  const Municipality: String := "joinville"

  /** `cnaes_industriais`. */
  const IndustrialDivisions: seq<String> := [
    "05", "06", "07", "08", "09", "10", "11", "12", "13", "14", "15", "16", "17", "18", "19",
    "20", "21", "22", "23", "24", "25", "26", "27", "28", "29", "30", "31", "32", "33", "35",
    "36", "37", "38", "39", "41", "42", "43"]

  const NonIndustrialHeading: String := "Não industrial"

  const IndustrialHeading: String := "Indústria"

  // ---------------------------------------------------------------------
  // The column check

  /** `colunas_esperadas - set(df.columns)`, on the header as read. */
  function MissingColumns(header: seq<String>): (missing: set<String>)
    ensures missing <= Expected
    ensures forall c :: c in Expected ==> (c in missing <==> c !in header)
  {
    Expected - set c | c in header
  }

  /** `df.rename(columns=lambda x: x.strip())`. */
  function StripNames(header: seq<String>): (names: seq<String>)
    ensures |names| == |header|
    ensures forall i :: 0 <= i < |header| ==> names[i] == Strip(header[i])
  {
    seq(|header|, i requires 0 <= i < |header| => Strip(header[i]))
  }

  /** The check made on the trimmed header, as the trimming of the names
      right after it evidently intends. */
  function MissingAfterStrip(header: seq<String>): (missing: set<String>)
    ensures missing <= Expected
    ensures forall c :: c in Expected ==>
      (c in missing <==> forall i :: 0 <= i < |header| ==> Strip(header[i]) != c)
  {
    var names := StripNames(header);
    assert forall c :: c in names <==> exists i :: 0 <= i < |header| && Strip(header[i]) == c;
    MissingColumns(names)
  }

  lemma ExpectedNamesTrimmed()
    ensures forall c :: c in Expected ==> c != [] && NoOuterSpace(c)
  {
  }

  /** Checking after the trim accepts every header the check as written
      accepts, and surrounding spaces in the names no longer matter. */
  lemma CheckAfterStrip(header: seq<String>)
    ensures MissingAfterStrip(header) <= MissingColumns(header)
    ensures MissingAfterStrip(StripNames(header)) == MissingAfterStrip(header)
  {
    ExpectedNamesTrimmed();
    forall c | c in MissingAfterStrip(header) ensures c in MissingColumns(header) {
      if c in header {
        var i :| 0 <= i < |header| && header[i] == c;
        StripFixed(c);
      }
    }
    var names := StripNames(header);
    forall i | 0 <= i < |names| ensures Strip(names[i]) == Strip(header[i]) {
      StripFixed(Strip(header[i]));
    }
  }

  /** A header whose name carries a space, as in `" cnae"`. */
  const SpacedHeader: seq<String> := [" cnae", "nm_mun", "nu_remuneracao", "setor"]

  /** As written, the check refuses a header whose `cnae` carries a space... */
  lemma SpacedHeaderRefused()
    ensures MissingColumns(SpacedHeader) == {"cnae"}
  {
    assert "cnae" !in SpacedHeader;
    assert forall c :: c in Expected && c != "cnae" ==> c in SpacedHeader;
  }

  /** ...although the trim that follows would have fixed it. */
  lemma SpacedHeaderAccepted()
    ensures MissingAfterStrip(SpacedHeader) == {}
  {
    assert SpacedHeader[0] == [' '] + "cnae";
    assert NamedAt(SpacedHeader, 0, "cnae") && NamedAt(SpacedHeader, 1, "nm_mun");
    assert NamedAt(SpacedHeader, 2, "nu_remuneracao") && NamedAt(SpacedHeader, 3, "setor");
    PaddedHeaderAccepted(SpacedHeader);
  }

  /** `header[i]` is `c`, possibly behind one blank. */
  predicate NamedAt(header: seq<String>, i: int, c: String) {
    0 <= i < |header| && (header[i] == c || header[i] == [' '] + c)
  }

  /** The check after the trim accepts any header that has every expected
      name, each as it is or behind one blank. */
  lemma PaddedHeaderAccepted(header: seq<String>)
    requires forall c :: c in Expected ==> exists i :: NamedAt(header, i, c)
    ensures MissingAfterStrip(header) == {}
  {
    ExpectedNamesTrimmed();
    NamesFound(header, Expected);
  }

  lemma NamesFound(header: seq<String>, names: set<String>)
    requires forall c :: c in names ==> c != [] && NoOuterSpace(c)
    requires forall c :: c in names ==> exists i :: NamedAt(header, i, c)
    ensures forall c :: c in names ==> exists i :: 0 <= i < |header| && Strip(header[i]) == c
  {
    forall c | c in names ensures exists i :: 0 <= i < |header| && Strip(header[i]) == c {
      var i :| NamedAt(header, i, c);
      NameFound(header, i, c);
    }
  }

  lemma NameFound(header: seq<String>, i: int, c: String)
    requires NamedAt(header, i, c) && c != [] && NoOuterSpace(c)
    ensures Strip(header[i]) == c
  {
    if header[i] == c {
      StripFixed(c);
    } else {
      StripLeadingBlank(c);
    }
  }

  // ---------------------------------------------------------------------
  // Cleaning, row by row

  function StripCell(c: Option<String>): (d: Option<String>)
    ensures d.Some? <==> c.Some?
    ensures d.Some? ==> NoOuterSpace(d.value)
  {
    if c.Some? then Some(Strip(c.value)) else None
  }

  /** `applymap(lambda x: x.strip() if isinstance(x, str) else x)`. */
  function StripRow(r: Record): Record {
    Record(StripCell(r.mun), StripCell(r.cnae), StripCell(r.pay), StripCell(r.sector))
  }

  /** `astype(str).str.zfill(7)`: a missing code is first printed "nan". */
  function PadRow(r: Record): Record {
    r.(cnae := Some(ZFill(CellText(r.cnae), CnaeWidth)))
  }

  /** `str.replace(",", ".")`; a missing value stays missing. */
  function PointRow(r: Record): Record {
    r.(pay := if r.pay.Some? then Some(ReplaceChar(r.pay.value, ',', '.')) else None)
  }

  /** `pd.to_numeric(errors="coerce")`. */
  function NumericRow(r: Record): Wage {
    Wage(r.mun, r.cnae, if r.pay.Some? then ParseDecimal(r.pay.value) else None, r.sector)
  }

  /** The text of a remuneration with a decimal comma, as a number. */
  function ParsePay(s: String): Option<real> {
    ParseDecimal(ReplaceChar(s, ',', '.'))
  }

  /** All the cleaning steps applied to one row. */
  function Clean(r: Record): Wage {
    NumericRow(PointRow(PadRow(StripRow(r))))
  }

  /** A cleaned row: its texts are trimmed, its code has at least seven
      characters and keeps the value of a code made of digits, and its
      remuneration is the trimmed text read with a decimal comma. */
  lemma CleanRow(r: Record)
    ensures Clean(r).mun == StripCell(r.mun) && Clean(r).sector == StripCell(r.sector)
    ensures Clean(r).cnae.Some? && |Clean(r).cnae.value| >= CnaeWidth
    ensures r.cnae.Some? && AllDigits(Strip(r.cnae.value)) ==>
      AllDigits(Clean(r).cnae.value) && DigitsValue(Clean(r).cnae.value) == DigitsValue(Strip(r.cnae.value))
    ensures Clean(r).pay == if r.pay.Some? then ParsePay(Strip(r.pay.value)) else None
  {
    if r.cnae.Some? && AllDigits(Strip(r.cnae.value)) {
      ZFillDigits(Strip(r.cnae.value), CnaeWidth);
    }
  }

  // ---------------------------------------------------------------------
  // Cleaning, column by column, as the script does it

  function StripCells(t: seq<Record>): (u: seq<Record>)
    ensures |u| == |t| && forall i :: 0 <= i < |t| ==> u[i] == StripRow(t[i])
  {
    seq(|t|, i requires 0 <= i < |t| => StripRow(t[i]))
  }

  function PadCnae(t: seq<Record>): (u: seq<Record>)
    ensures |u| == |t| && forall i :: 0 <= i < |t| ==> u[i] == PadRow(t[i])
  {
    seq(|t|, i requires 0 <= i < |t| => PadRow(t[i]))
  }

  function DecimalPoint(t: seq<Record>): (u: seq<Record>)
    ensures |u| == |t| && forall i :: 0 <= i < |t| ==> u[i] == PointRow(t[i])
  {
    seq(|t|, i requires 0 <= i < |t| => PointRow(t[i]))
  }

  function ToNumeric(t: seq<Record>): (u: seq<Wage>)
    ensures |u| == |t| && forall i :: 0 <= i < |t| ==> u[i] == NumericRow(t[i])
  {
    seq(|t|, i requires 0 <= i < |t| => NumericRow(t[i]))
  }

  /** The column steps, one after the other, clean every row on its own. */
  function Cleaned(t: seq<Record>): (u: seq<Wage>)
    ensures |u| == |t| && forall i :: 0 <= i < |t| ==> u[i] == Clean(t[i])
  {
    ToNumeric(DecimalPoint(PadCnae(StripCells(t))))
  }

  predicate HasPay(w: Wage) {
    w.pay.Some?
  }

  predicate NoPay(w: Wage) {
    w.pay.None?
  }

  /** `dropna(subset=["nu_remuneracao"])` after the cleaning. */
  function Prepare(t: seq<Record>): seq<Wage> {
    Filter(Cleaned(t), HasPay)
  }

  /** Only the rows whose remuneration converts stay, all of them, in order. */
  lemma {:induction false} PrepareKeeps(t: seq<Record>)
    ensures Prepare(t) == if t == [] then [] else
      Prepare(t[..|t| - 1]) + (if HasPay(Clean(t[|t| - 1])) then [Clean(t[|t| - 1])] else [])
  {
    if t != [] {
      var init := t[..|t| - 1];
      CleanedSnoc(t);
      FilterSnoc(Cleaned(init), Clean(t[|t| - 1]), HasPay);
    }
  }

  lemma CleanedSnoc(t: seq<Record>)
    requires t != []
    ensures Cleaned(t) == Cleaned(t[..|t| - 1]) + [Clean(t[|t| - 1])]
  {
    var init := t[..|t| - 1];
    var w := Cleaned(init);
    forall i | 0 <= i < |t| - 1 ensures w[i] == Clean(t[i]) {
      assert init[i] == t[i];
    }
    PointwiseSnoc(t, Cleaned(t), w, Clean);
  }

  // ---------------------------------------------------------------------
  // Reading remunerations

  lemma CommaToPoint(w: String, frac: String)
    requires AllDigits(w) && AllDigits(frac)
    ensures ReplaceChar(w + [','] + frac, ',', '.') == w + ['.'] + frac
  {
    var s := w + [','] + frac;
    var t := ReplaceChar(s, ',', '.');
    forall i | 0 <= i < |t| ensures t[i] == (w + ['.'] + frac)[i] {
      if i < |w| { assert IsDigit(w[i]); }
      else if i > |w| { assert IsDigit(frac[i - |w| - 1]); }
    }
  }

  /** A text starting with a digit carries no sign. */
  lemma Unsigned(t: String)
    requires |t| >= 1 && IsDigit(t[0])
    ensures ParseDecimal(t) == UnsignedDecimal(t)
  {
  }

  lemma FirstPoint(w: String, frac: String)
    requires AllDigits(w)
    ensures IndexOf(w + ['.'] + frac, '.') == Some(|w|)
  {
    assert (w + ['.'] + frac)[|w|] == '.';
  }

  /** Digits, a '.' and digits read as the decimal number they write. */
  lemma PointNumber(w: String, frac: String)
    requires IsDigits(w) && AllDigits(frac)
    ensures ParseDecimal(w + ['.'] + frac) == Some(DecimalValue(w, frac))
  {
    var t := w + ['.'] + frac;
    Unsigned(t);
    FirstPoint(w, frac);
    assert t[..|w|] == w;
    assert t[|w| + 1..] == frac;
  }

  /** A remuneration written with a decimal comma reads as its value. */
  lemma CommaDecimal(whole: nat, frac: String)
    requires AllDigits(frac)
    ensures ParsePay(NatToDecimal(whole) + [','] + frac) == Some(DecimalValue(NatToDecimal(whole), frac))
    ensures DecimalValue(NatToDecimal(whole), frac) == whole as real + DigitsValue(frac) as real / Pow10(|frac|) as real
  {
    var w := NatToDecimal(whole);
    CommaToPoint(w, frac);
    PointNumber(w, frac);
    NatToDecimalRoundTrip(whole);
  }

  /** A number read with its '.' at `k` has no second '.'. */
  lemma SecondPointUnsigned(u: String, k: nat, j: nat)
    requires k < j < |u| && u[k] == '.' && u[j] == '.'
    ensures UnsignedDecimal(u) == None
  {
    var i := IndexOf(u, '.').value;
    assert u[i + 1..][j - i - 1] == '.';
    assert !IsDigit('.');
  }

  /** A remuneration with two separators (a thousands '.' and a decimal ','
      say) does not convert, so its row is dropped. */
  lemma TwoSeparatorsRefused(s: String, i: nat, j: nat)
    requires i < j < |s|
    requires s[i] in ",." && s[j] in ",."
    ensures ParsePay(s) == None
  {
    var t := ReplaceChar(s, ',', '.');
    assert t[i] == '.' && t[j] == '.';
    if |t| >= 1 && (t[0] == '-' || t[0] == '+') {
      assert i >= 1;
      var u := t[1..];
      assert u[i - 1] == '.' && u[j - 1] == '.';
      SecondPointUnsigned(u, i - 1, j - 1);
    } else {
      SecondPointUnsigned(t, i, j);
    }
  }

  // ---------------------------------------------------------------------
  // Joinville

  /** `df["nm_mun"].str.lower().str.strip() == "joinville"`; a missing name
      compares false. */
  predicate InJoinville(w: Wage) {
    w.mun.Some? && Strip(Lower(w.mun.value)) == Municipality
  }

  /** A cleaned row is kept exactly when its municipality, trimmed and lower-cased,
      reads "joinville". */
  lemma JoinvilleMatch(r: Record)
    ensures InJoinville(Clean(r)) <==> r.mun.Some? && Lower(Strip(r.mun.value)) == Municipality
  {
    if r.mun.Some? {
      var m := Strip(r.mun.value);
      StripLower(m);
      StripFixed(m);
    }
  }

  /** The rows analysed are exactly the cleaned Joinville rows whose
      remuneration converts. */
  lemma AnalysedRows(t: seq<Record>, w: Wage)
    ensures w in Filter(Prepare(t), InJoinville) <==>
      (exists i :: 0 <= i < |t| && w == Clean(t[i])) && HasPay(w) && InJoinville(w)
  {
    var cleaned := Cleaned(t);
    var prepared := Prepare(t);
    if w in Filter(prepared, InJoinville) {
      assert w in multiset(Filter(prepared, InJoinville));
      assert w in multiset(prepared);
      assert w in prepared;
      assert w in multiset(cleaned);
      var i :| 0 <= i < |cleaned| && cleaned[i] == w;
      assert w == Clean(t[i]);
    }
    if (exists i :: 0 <= i < |t| && w == Clean(t[i])) && HasPay(w) && InJoinville(w) {
      var i :| 0 <= i < |t| && w == Clean(t[i]);
      assert cleaned[i] == w;
      assert w in prepared;
      var k :| 0 <= k < |prepared| && prepared[k] == w;
    }
  }

  // ---------------------------------------------------------------------
  // Means

  /** A missing remuneration counts as nothing. */
  function PayOf(w: Wage): real {
    if w.pay.Some? then w.pay.value else 0.0
  }

  /** Sum of the remunerations present. */
  function PayTotal(ws: seq<Wage>): real {
    if ws == [] then 0.0 else PayTotal(ws[..|ws| - 1]) + PayOf(ws[|ws| - 1])
  }

  function PayCount(ws: seq<Wage>): nat {
    Count(ws, HasPay)
  }

  /** `Series.mean()`: missing values are skipped, and with none left the
      mean is NaN. */
  function MeanPay(ws: seq<Wage>): (m: Option<real>)
    ensures m.None? <==> PayCount(ws) == 0
    ensures m.Some? ==> m.value * PayCount(ws) as real == PayTotal(ws)
  {
    if PayCount(ws) == 0 then None else Some(PayTotal(ws) / PayCount(ws) as real)
  }

  /** `a` added `n` times. */
  function Repeated(a: real, n: nat): real {
    if n == 0 then 0.0 else Repeated(a, n - 1) + a
  }

  lemma {:induction false} RepeatedIsProduct(a: real, n: nat)
    ensures Repeated(a, n) == a * n as real
  {
    if n > 0 {
      RepeatedIsProduct(a, n - 1);
      assert a * n as real == a * (n - 1) as real + a;
    }
  }

  /** A total of values within bounds is within the bounds repeated once
      per value. */
  lemma {:induction false} PayBounds(ws: seq<Wage>, lo: real, hi: real)
    requires forall t :: 0 <= t < |ws| && HasPay(ws[t]) ==> lo <= ws[t].pay.value <= hi
    ensures Repeated(lo, PayCount(ws)) <= PayTotal(ws) <= Repeated(hi, PayCount(ws))
  {
    if ws != [] {
      var init := ws[..|ws| - 1];
      forall t | 0 <= t < |init| && HasPay(init[t]) ensures lo <= init[t].pay.value <= hi {
        assert init[t] == ws[t];
      }
      PayBounds(init, lo, hi);
    }
  }

  /** A mean lies between any bounds of the values it averages. */
  lemma MeanWithin(ws: seq<Wage>, lo: real, hi: real)
    requires PayCount(ws) > 0
    requires forall t :: 0 <= t < |ws| && HasPay(ws[t]) ==> lo <= ws[t].pay.value <= hi
    ensures MeanPay(ws).Some? && lo <= MeanPay(ws).value <= hi
  {
    var n := PayCount(ws);
    PayBounds(ws, lo, hi);
    RepeatedIsProduct(lo, n);
    RepeatedIsProduct(hi, n);
    QuotientWithin(lo, hi, MeanPay(ws).value, n as real, PayTotal(ws), Repeated(lo, n), Repeated(hi, n));
  }

  /** A quotient of a total by a positive count lies between the bounds
      the total has per unit of count. */
  lemma QuotientWithin(lo: real, hi: real, m: real, n: real, total: real, below: real, above: real)
    requires n > 0.0 && m * n == total
    requires below == lo * n && above == hi * n
    requires below <= total <= above
    ensures lo <= m <= hi
  {
    ScaledOrder(lo, m, n);
    ScaledOrder(m, hi, n);
  }

  /** Scaling by a positive number keeps the order. */
  lemma ScaledOrder(a: real, b: real, n: real)
    requires n > 0.0 && a * n <= b * n
    ensures a <= b
  {
  }

  /** Splitting the rows by a predicate splits their count and their total. */
  lemma {:induction false} PaySplit(ws: seq<Wage>, p: Wage -> bool, q: Wage -> bool)
    requires forall w :: q(w) == !p(w)
    ensures PayCount(Filter(ws, p)) + PayCount(Filter(ws, q)) == PayCount(ws)
    ensures PayTotal(Filter(ws, p)) + PayTotal(Filter(ws, q)) == PayTotal(ws)
  {
    if ws != [] {
      var init, x := ws[..|ws| - 1], ws[|ws| - 1];
      assert ws == init + [x];
      PaySplit(init, p, q);
      FilterSnoc(init, x, p);
      FilterSnoc(init, x, q);
      if p(x) {
        PaySnoc(Filter(init, p), x);
      } else {
        PaySnoc(Filter(init, q), x);
      }
    }
  }

  lemma PaySnoc(ws: seq<Wage>, x: Wage)
    ensures PayCount(ws + [x]) == PayCount(ws) + (if HasPay(x) then 1 else 0)
    ensures PayTotal(ws + [x]) == PayTotal(ws) + PayOf(x)
  {
    assert (ws + [x])[..|ws|] == ws;
  }

  // ---------------------------------------------------------------------
  // Remuneration per sector

  predicate HasSector(w: Wage) {
    w.sector.Some?
  }

  /** The sector of each row that has one. */
  function SectorPairs(ws: seq<Wage>): (s: seq<(String, Wage)>)
    ensures |s| == Count(ws, HasSector)
    ensures forall i :: 0 <= i < |s| ==> s[i].1 in ws && s[i].1.sector == Some(s[i].0)
  {
    var named := Filter(ws, HasSector);
    forall i | 0 <= i < |named| ensures named[i] in ws {
      assert named[i] in multiset(named);
    }
    seq(|named|, i requires 0 <= i < |named| => (named[i].sector.value, named[i]))
  }

  function InSector(k: String): Wage -> bool {
    (w: Wage) => w.sector == Some(k)
  }

  /** The sectors of the rows, each once. */
  function Sectors(ws: seq<Wage>): (ks: seq<String>)
    ensures Distinct(ks)
  {
    DistinctKeys(SectorPairs(ws))
  }

  /** `groupby("setor")["nu_remuneracao"].mean()`: one row per sector, rows
      without a sector left out; each sector's value is the mean of its rows. */
  function SectorMeans(ws: seq<Wage>): (t: seq<(String, Option<real>)>)
    ensures |t| == |Sectors(ws)|
    ensures forall i :: 0 <= i < |t| ==> t[i].0 == Sectors(ws)[i]
    ensures forall i :: 0 <= i < |t| ==> t[i].1 == MeanPay(Filter(ws, InSector(t[i].0)))
  {
    var ks := Sectors(ws);
    seq(|ks|, i requires 0 <= i < |ks| => (ks[i], MeanPay(Filter(ws, InSector(ks[i])))))
  }

  /** Every row with a sector has its sector listed. */
  lemma SectorsCover(ws: seq<Wage>, t: nat)
    requires t < |ws| && HasSector(ws[t])
    ensures ws[t].sector.value in Sectors(ws)
  {
    var named := Filter(ws, HasSector);
    var pairs := SectorPairs(ws);
    assert ws[t] in named;
    var u :| 0 <= u < |named| && named[u] == ws[t];
    assert pairs[u].0 == ws[t].sector.value;
  }

  /** Every listed sector is the sector of some row. */
  lemma SectorsSound(ws: seq<Wage>, k: String) returns (t: nat)
    requires k in Sectors(ws)
    ensures t < |ws| && ws[t].sector == Some(k)
  {
    var pairs := SectorPairs(ws);
    var ks := Sectors(ws);
    var i :| 0 <= i < |ks| && ks[i] == k;
    var u :| 0 <= u < |pairs| && pairs[u].0 == ks[i];
    t :| 0 <= t < |ws| && ws[t] == pairs[u].1;
  }

  /** Each sector of the rows is listed once, and only those. */
  lemma SectorMeansKeys(ws: seq<Wage>)
    ensures forall i, j :: 0 <= i < j < |SectorMeans(ws)| ==> SectorMeans(ws)[i].0 != SectorMeans(ws)[j].0
    ensures forall t :: 0 <= t < |ws| && HasSector(ws[t]) ==>
      exists i :: 0 <= i < |SectorMeans(ws)| && SectorMeans(ws)[i].0 == ws[t].sector.value
    ensures forall i :: 0 <= i < |SectorMeans(ws)| ==>
      exists t :: 0 <= t < |ws| && ws[t].sector == Some(SectorMeans(ws)[i].0)
  {
    var means, ks := SectorMeans(ws), Sectors(ws);
    forall i, j | 0 <= i < j < |means| ensures means[i].0 != means[j].0 {
      assert means[i].0 == ks[i] && means[j].0 == ks[j];
    }
    SectorMeansComplete(ws);
    SectorMeansSound(ws);
  }

  lemma SectorMeansComplete(ws: seq<Wage>)
    ensures forall t :: 0 <= t < |ws| && HasSector(ws[t]) ==>
      exists i :: 0 <= i < |SectorMeans(ws)| && SectorMeans(ws)[i].0 == ws[t].sector.value
  {
    var means := SectorMeans(ws);
    var ks := Sectors(ws);
    forall t | 0 <= t < |ws| && HasSector(ws[t])
      ensures exists i :: 0 <= i < |means| && means[i].0 == ws[t].sector.value
    {
      SectorsCover(ws, t);
      var i :| 0 <= i < |ks| && ks[i] == ws[t].sector.value;
      assert means[i].0 == ks[i];
    }
  }

  lemma SectorMeansSound(ws: seq<Wage>)
    ensures forall i :: 0 <= i < |SectorMeans(ws)| ==>
      exists t :: 0 <= t < |ws| && ws[t].sector == Some(SectorMeans(ws)[i].0)
  {
    var means := SectorMeans(ws);
    var ks := Sectors(ws);
    forall i | 0 <= i < |means| ensures exists t :: 0 <= t < |ws| && ws[t].sector == Some(means[i].0) {
      assert ks[i] in ks;
      var t := SectorsSound(ws, ks[i]);
    }
  }

  /** Once every row has a remuneration, the value of a sector that has rows
      is a number lying between any bounds of its rows' remunerations. */
  lemma SectorMeanWithin(ws: seq<Wage>, k: String, lo: real, hi: real)
    requires forall t :: 0 <= t < |ws| ==> ws[t].pay.Some?
    requires exists t :: 0 <= t < |ws| && ws[t].sector == Some(k)
    requires forall t :: 0 <= t < |ws| && ws[t].sector == Some(k) ==> lo <= ws[t].pay.value <= hi
    ensures MeanPay(Filter(ws, InSector(k))).Some?
    ensures lo <= MeanPay(Filter(ws, InSector(k))).value <= hi
  {
    var rows := Filter(ws, InSector(k));
    var t :| 0 <= t < |ws| && ws[t].sector == Some(k);
    assert ws[t] in rows;
    var u :| 0 <= u < |rows| && rows[u] == ws[t];
    CountPositive(rows, HasPay);
    forall v | 0 <= v < |rows| && HasPay(rows[v]) ensures lo <= rows[v].pay.value <= hi {
      assert rows[v] in multiset(ws);
    }
    MeanWithin(rows, lo, hi);
  }

  // ---------------------------------------------------------------------
  // Industry against the rest

  /** `str[:2]`. */
  function Division(code: String): (d: String)
    ensures |d| == if |code| < 2 then |code| else 2
    ensures d == code[..|d|]
  {
    if |code| <= 2 then code else code[..2]
  }

  predicate IndustrialDivision(d: int) {
    5 <= d <= 33 || 35 <= d <= 39 || 41 <= d <= 43
  }

  /** `df["cnae"].str[:2].isin(cnaes_industriais)`; a missing code is not in the list. */
  predicate Industrial(w: Wage) {
    w.cnae.Some? && Division(w.cnae.value) in IndustrialDivisions
  }

  predicate NonIndustrial(w: Wage) {
    !Industrial(w)
  }

  /** Two characters naming a division of the list: 05-09, 10-29, 30-39
      but 34, and 41-43. */
  predicate DivisionChars(p: String) {
    |p| == 2 &&
    ((p[0] == '0' && '5' <= p[1] <= '9') || ('1' <= p[0] <= '2' && IsDigit(p[1])) ||
     (p[0] == '3' && IsDigit(p[1]) && p[1] != '4') || (p[0] == '4' && '1' <= p[1] <= '3'))
  }

  lemma ListedBelow(i: nat)
    requires i < 19
    ensures DivisionChars(IndustrialDivisions[i])
  {
  }

  lemma ListedFrom(i: nat)
    requires 19 <= i < |IndustrialDivisions|
    ensures DivisionChars(IndustrialDivisions[i])
  {
  }

  lemma DivisionDigits(p: String)
    requires |p| == 2 && AllDigits(p)
    ensures DivisionChars(p) <==> IndustrialDivision(DigitsValue(p))
  {
    var a, b := DigitValue(p[0]), DigitValue(p[1]);
    assert p[..1][..0] == [] && p[..1][0] == p[0];
    assert DigitsValue(p[..1]) == a;
    assert p[..|p| - 1] == p[..1];
    assert DigitsValue(p) == 10 * a + b;
  }

  lemma Listed(p: String)
    requires p in IndustrialDivisions
    ensures DivisionChars(p)
  {
    var i :| 0 <= i < |IndustrialDivisions| && IndustrialDivisions[i] == p;
    if i < 19 { ListedBelow(i); } else { ListedFrom(i); }
  }

  lemma Unlisted(p: String)
    requires DivisionChars(p)
    ensures p in IndustrialDivisions
  {
    assert p == [p[0], p[1]];
  }

  lemma ListedIff(p: String)
    ensures p in IndustrialDivisions <==> DivisionChars(p)
  {
    if p in IndustrialDivisions {
      Listed(p);
    }
    if DivisionChars(p) {
      Unlisted(p);
    }
  }

  lemma DivisionCharsRange(p: String)
    ensures DivisionChars(p) <==> |p| == 2 && AllDigits(p) && IndustrialDivision(DigitsValue(p))
  {
    if |p| == 2 && AllDigits(p) {
      DivisionDigits(p);
    } else if DivisionChars(p) {
      assert AllDigits(p);
    }
  }

  /** The list names the divisions 05 to 33, 35 to 39 and 41 to 43, written
      with two digits. */
  lemma IndustrialDivisionsRange(p: String)
    ensures p in IndustrialDivisions <==> |p| == 2 && AllDigits(p) && IndustrialDivision(DigitsValue(p))
  {
    ListedIff(p);
    DivisionCharsRange(p);
  }

  /** The division of a seven-digit code is its value over 100000. */
  lemma DivisionValue(c: String)
    requires AllDigits(c) && |c| == CnaeWidth
    ensures Division(c) == c[..2] && AllDigits(c[..2])
    ensures DigitsValue(c[..2]) == DigitsValue(c) / 100000
  {
    var head, tail := c[..2], c[2..];
    assert c == head + tail;
    DigitsConcat(head, tail);
    DigitsBelow(tail);
    assert |tail| == 5;
    assert Pow10(2) == 100;
    assert Pow10(4) == 10000;
    assert Pow10(5) == 100000;
  }

  /** A code of at most seven digits is industrial exactly when its
      division, the number over 100000 once padded, is in the ranges. */
  lemma CnaeDivision(s: String)
    requires AllDigits(s) && |s| <= CnaeWidth
    ensures Division(ZFill(s, CnaeWidth)) in IndustrialDivisions <==> IndustrialDivision(DigitsValue(s) / 100000)
  {
    var c := ZFill(s, CnaeWidth);
    ZFillDigits(s, CnaeWidth);
    DivisionValue(c);
    IndustrialDivisionsRange(c[..2]);
  }

  /** A missing code prints as "nan", pads to "0000nan" and counts as not
      industrial. */
  lemma MissingCnae(r: Record)
    requires r.cnae.None?
    ensures Clean(r).cnae == Some("0000nan")
    ensures NonIndustrial(Clean(r))
  {
    assert ZFill("nan", CnaeWidth) == "0000nan";
    assert Division("0000nan") == "00";
    IndustrialDivisionsRange("00");
  }

  /** `df_comparacao`: the mean of the rows outside the list, then of those in it. */
  function Comparison(ws: seq<Wage>): (t: seq<(String, Option<real>)>)
    ensures |t| == 2 && t[0].0 == NonIndustrialHeading && t[1].0 == IndustrialHeading
    ensures t[0].1 == MeanPay(Filter(ws, NonIndustrial)) && t[1].1 == MeanPay(Filter(ws, Industrial))
  {
    [(NonIndustrialHeading, MeanPay(Filter(ws, NonIndustrial))),
     (IndustrialHeading, MeanPay(Filter(ws, Industrial)))]
  }

  /** The two groups split the rows: their counts and totals add up to the
      whole, and when both have a mean the overall mean lies between them. */
  lemma ComparisonPartition(ws: seq<Wage>)
    ensures PayCount(Filter(ws, NonIndustrial)) + PayCount(Filter(ws, Industrial)) == PayCount(ws)
    ensures PayTotal(Filter(ws, NonIndustrial)) + PayTotal(Filter(ws, Industrial)) == PayTotal(ws)
    ensures Comparison(ws)[0].1.Some? && Comparison(ws)[1].1.Some? ==>
      MeanPay(ws).Some? && Between(Comparison(ws)[0].1.value, Comparison(ws)[1].1.value, MeanPay(ws).value)
  {
    assert forall w :: Industrial(w) == !NonIndustrial(w);
    SplitMeans(ws, NonIndustrial, Industrial);
  }

  /** Splitting the rows in two splits their count and total, and puts the
      overall mean between the two means. */
  lemma SplitMeans(ws: seq<Wage>, p: Wage -> bool, q: Wage -> bool)
    requires forall w :: q(w) == !p(w)
    ensures PayCount(Filter(ws, p)) + PayCount(Filter(ws, q)) == PayCount(ws)
    ensures PayTotal(Filter(ws, p)) + PayTotal(Filter(ws, q)) == PayTotal(ws)
    ensures MeanPay(Filter(ws, p)).Some? && MeanPay(Filter(ws, q)).Some? ==>
      MeanPay(ws).Some? && Between(MeanPay(Filter(ws, p)).value, MeanPay(Filter(ws, q)).value, MeanPay(ws).value)
  {
    PaySplit(ws, p, q);
    var a, b := Filter(ws, p), Filter(ws, q);
    if PayCount(a) > 0 && PayCount(b) > 0 {
      MeanOfParts(a, b, ws);
    }
  }

  predicate Between(a: real, b: real, m: real) {
    (a <= m <= b) || (b <= m <= a)
  }

  lemma MeanOfParts(a: seq<Wage>, b: seq<Wage>, ws: seq<Wage>)
    requires PayCount(a) > 0 && PayCount(b) > 0
    requires PayCount(a) + PayCount(b) == PayCount(ws) && PayTotal(a) + PayTotal(b) == PayTotal(ws)
    ensures Between(MeanPay(a).value, MeanPay(b).value, MeanPay(ws).value)
  {
    var na, nb := PayCount(a) as real, PayCount(b) as real;
    var ta, tb := PayTotal(a), PayTotal(b);
    assert MeanPay(a).value == ta / na;
    assert MeanPay(b).value == tb / nb;
    assert PayCount(ws) as real == na + nb;
    assert MeanPay(ws).value == (ta + tb) / (na + nb);
    MeansBetween(ta, tb, na, nb);
  }

  /** The mean of two groups together lies between the means of each. */
  lemma MeansBetween(ta: real, tb: real, na: real, nb: real)
    requires na > 0.0 && nb > 0.0
    ensures Between(ta / na, tb / nb, (ta + tb) / (na + nb))
  {
    var a, b, m := ta / na, tb / nb, (ta + tb) / (na + nb);
    assert a * na == ta;
    assert b * nb == tb;
    assert m * (na + nb) == ta + tb;
    WeightedBetween(a, b, m, na, nb);
  }

  /** A weighted mean of two values lies between them. */
  lemma WeightedBetween(a: real, b: real, m: real, na: real, nb: real)
    requires na > 0.0 && nb > 0.0
    requires m * (na + nb) == a * na + b * nb
    ensures (a <= m <= b) || (b <= m <= a)
  {
    assert (m - a) * na == (b - m) * nb;
  }

  // ---------------------------------------------------------------------
  // The whole script

  /** The two sheets over the cleaned Joinville rows. */
  function Analyse(table: seq<Record>): (a: Analysis)
    ensures |a.comparison| == 2
  {
    var joinville := Filter(Prepare(table), InJoinville);
    Analysis(SectorMeans(joinville), Comparison(joinville))
  }

  /** The script without the Excel output: the column check on the header as
      read, then the two sheets. */
  function Demanda1(header: seq<String>, table: seq<Record>): (r: Result<Analysis, set<String>>)
    ensures r.Failure? <==> MissingColumns(header) != {}
    ensures r.Failure? ==> r.error == MissingColumns(header) && r.error <= Expected
    ensures r.Success? ==> r.value == Analyse(table)
  {
    var missing := MissingColumns(header);
    if missing != {} then Failure(missing) else Success(Analyse(table))
  }

  /** The script as its trimming of the names intends it: the column check
      made on the trimmed header. */
  function Demanda1Trimmed(header: seq<String>, table: seq<Record>): (r: Result<Analysis, set<String>>)
    ensures r.Failure? <==> MissingAfterStrip(header) != {}
    ensures r.Failure? ==> r.error == MissingAfterStrip(header) && r.error <= Expected
    ensures r.Success? ==> r.value == Analyse(table)
  {
    var missing := MissingAfterStrip(header);
    if missing != {} then Failure(missing) else Success(Analyse(table))
  }

  /** The two scripts agree on every header whose names carry no surrounding
      space; otherwise the trimmed one accepts whatever the written one does. */
  lemma Demanda1Agreement(header: seq<String>, table: seq<Record>)
    ensures (forall i :: 0 <= i < |header| ==> NoOuterSpace(header[i])) ==>
      Demanda1Trimmed(header, table) == Demanda1(header, table)
    ensures Demanda1(header, table).Success? ==> Demanda1Trimmed(header, table) == Demanda1(header, table)
  {
    CheckAfterStrip(header);
    TrimmedHeaderChecks(header);
  }

  /** On a header of trimmed names both checks find the same columns missing. */
  lemma TrimmedHeaderChecks(header: seq<String>)
    ensures (forall i :: 0 <= i < |header| ==> NoOuterSpace(header[i])) ==>
      MissingAfterStrip(header) == MissingColumns(header)
  {
    if forall i :: 0 <= i < |header| ==> NoOuterSpace(header[i]) {
      assert StripNames(header) == header by {
        forall i | 0 <= i < |header| ensures StripNames(header)[i] == header[i] {
          StripFixed(header[i]);
        }
      }
    }
  }

  /** On the header `[" cnae", ...]` the script stops with `cnae` missing,
      where the trimmed check goes on to the analysis. */
  lemma Demanda1SpacedHeader(table: seq<Record>)
    ensures Demanda1(SpacedHeader, table) == Failure({"cnae"})
    ensures Demanda1Trimmed(SpacedHeader, table) == Success(Analyse(table))
  {
    SpacedHeaderRefused();
    SpacedHeaderAccepted();
  }

  /** The script's steps on a frame rebound after each one; rows are only
      dropped when some remuneration failed to convert. */
  method GerarDemanda1(header: seq<String>, table: seq<Record>) returns (r: Result<Analysis, set<String>>)
    ensures r == Demanda1(header, table)
  {
    var missing := MissingColumns(header);
    if missing != {} {
      return Failure(missing);
    }
    var df := StripCells(table);
    df := PadCnae(df);
    df := DecimalPoint(df);
    var wages := ToNumeric(df);
    if Count(wages, NoPay) > 0 {
      wages := Filter(wages, HasPay);
    } else {
      CountComplement(wages, HasPay, NoPay);
      FilterAll(wages, HasPay);
    }
    var joinville := Filter(wages, InJoinville);
    r := Success(Analysis(SectorMeans(joinville), Comparison(joinville)));
  }
}
