/** The two text helpers shared by the validation scripts: splitting a TABNET
    label such as "420005 ABDON BATISTA" into its code and its name, and the
    normalised form of a name used as a join key. */
module Names {
  import opened Wrappers
  import opened Text

  /** A label splits when, once trimmed, its text up to the first space is a
      non-empty run of digits. */
  ghost predicate HasCodePrefix(t: String) {
    exists i :: 0 <= i < |t| && t[i] == ' ' && IsDigits(t[..i])
  }

  /** `extrair_codigo_nome`: (code, name) when the label splits, otherwise no
      code and the label itself, untrimmed; a missing label stays missing. */
  function ExtractCodeName(cell: Option<String>): (r: (Option<String>, Option<String>))
    ensures cell.None? ==> r == (None, None)
    ensures r.0.Some? <==> cell.Some? && HasCodePrefix(Strip(cell.value))
    ensures r.0.Some? ==>
      r.1.Some? && IsDigits(r.0.value) && ' ' !in r.0.value &&
      Strip(cell.value) == r.0.value + [' '] + r.1.value
    ensures r.0.None? ==> r.1 == cell
  {
    match cell
    case None => (None, None)
    case Some(s) =>
      var parts := SplitOnce(Strip(s), ' ');
      if |parts| == 2 && IsDigits(parts[0]) then
        assert HasCodePrefix(Strip(s)) by {
          assert Strip(s)[|parts[0]|] == ' ';
          assert Strip(s)[..|parts[0]|] == parts[0];
        }
        (Some(parts[0]), Some(parts[1]))
      else
        assert !HasCodePrefix(Strip(s)) by {
          if HasCodePrefix(Strip(s)) {
            var t := Strip(s);
            var i :| 0 <= i < |t| && t[i] == ' ' && IsDigits(t[..i]);
            FirstSpace(t, i);
            assert false;
          }
        }
        (None, cell)
  }

  /** A digit-only prefix ending at a space ends at the first space. */
  lemma FirstSpace(t: String, i: nat)
    requires i < |t| && t[i] == ' ' && IsDigits(t[..i])
    ensures SplitOnce(t, ' ') == [t[..i], t[i + 1..]]
  {
    var parts := SplitOnce(t, ' ');
    assert ' ' !in t[..i] by {
      forall k | 0 <= k < i ensures t[..i][k] != ' ' {
        assert IsDigit(t[..i][k]);
      }
    }
    assert ' ' in t by { assert t[i] == ' '; }
    assert |parts| == 2;
    var n := |parts[0]|;
    assert t[n] == ' ' by { assert t == parts[0] + [' '] + parts[1]; }
    assert n == i by {
      if n < i {
        assert false;
      } else if n > i {
        assert false;
      }
    }
    assert parts[0] == t[..n];
    assert parts[1] == t[n + 1..];
  }

  /** `normalizar_texto` without transliteration: lower case, then trimmed;
      a missing value stays missing. */
  function Normalize(cell: Option<String>): (r: Option<String>)
    ensures r.None? <==> cell.None?
    ensures cell.Some? ==> r == Some(Strip(Lower(cell.value)))
    ensures r.Some? ==> NoUpper(r.value) && NoOuterSpace(r.value)
    ensures r.Some? ==> |r.value| <= |cell.value|
  {
    match cell
    case None => None
    case Some(s) =>
      var low := Lower(s);
      var t := Strip(low);
      assert forall k :: 0 <= k < |t| ==> t[k] == low[LeadingSpace(low) + k];
      Some(t)
  }

  /** A row of the Gold aggregates: a name and an establishment count. */
  datatype NamedCount = NamedCount(name: Option<String>, quantity: int)

  /** Rows paired with their normalised name (the `*_norm` columns added
      before every merge on names). */
  function KeyedByName(rows: seq<NamedCount>): (k: seq<(Option<String>, NamedCount)>)
    ensures |k| == |rows|
    ensures forall i :: 0 <= i < |rows| ==> k[i] == (Normalize(rows[i].name), rows[i])
  {
    seq(|rows|, i requires 0 <= i < |rows| => (Normalize(rows[i].name), rows[i]))
  }

  /** Normalising twice is normalising once. */
  lemma NormalizeIdempotent(cell: Option<String>)
    ensures Normalize(Normalize(cell)) == Normalize(cell)
  {
    if cell.Some? {
      var t := Normalize(cell).value;
      LowerOfNoUpper(t);
      StripFixed(t);
    }
  }

  /** Names that differ only in case, or only in surrounding whitespace, get
      the same key. */
  lemma NormalizeIgnoresCase(s: String)
    ensures Normalize(Some(Lower(s))) == Normalize(Some(s))
  {
    LowerIdempotent(s);
  }

  lemma NormalizeIgnoresOuterSpace(s: String)
    ensures Normalize(Some(Strip(s))) == Normalize(Some(s))
  {
    StripLower(s);
    StripFixed(Strip(Lower(s)));
  }

  lemma LowerOfNoUpper(s: String)
    requires NoUpper(s)
    ensures Lower(s) == s
  {
  }
}
