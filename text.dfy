/** The string operations the scripts use, with Python's meaning:
    `str.lower`, `str.strip`, `str.split`, `in`, `str.isdigit`, `str.zfill`,
    `str(n)` for a natural number, `<` on strings, and the text-to-number
    conversion of `pd.to_numeric(..., errors="coerce")`. */
module Text {
  import opened Wrappers

  type String = seq<char>

  // ---------------------------------------------------------------------
  // Characters

  /** The characters Python's `str.isspace` accepts, which `str.strip()` removes. */
  predicate IsSpace(c: char) {
    var n := c as int;
    (9 <= n <= 13) || (28 <= n <= 32) || n == 133 || n == 160 || n == 5760
    || (8192 <= n <= 8202) || n == 8232 || n == 8233 || n == 8239 || n == 8287 || n == 12288
  }

  /** Upper-case letters of ASCII and Latin-1 (A-Z, À-Þ without ×). */
  predicate IsUpper(c: char) {
    var n := c as int;
    (65 <= n <= 90) || (192 <= n <= 222 && n != 215)
  }

  predicate IsDigit(c: char) {
    '0' <= c <= '9'
  }

  function LowerChar(c: char): (d: char)
    ensures !IsUpper(d)
    ensures IsSpace(d) <==> IsSpace(c)
    ensures !IsUpper(c) ==> d == c
  {
    if IsUpper(c) then (c as int + 32) as char else c
  }

  /** `s.lower()` on ASCII and Latin-1 letters. */
  function Lower(s: String): (r: String)
    ensures |r| == |s|
    ensures forall i :: 0 <= i < |s| ==> r[i] == LowerChar(s[i])
  {
    seq(|s|, i requires 0 <= i < |s| => LowerChar(s[i]))
  }

  predicate NoUpper(s: String) {
    forall i :: 0 <= i < |s| ==> !IsUpper(s[i])
  }

  /** Lower-casing twice changes nothing more. */
  lemma LowerIdempotent(s: String)
    ensures Lower(Lower(s)) == Lower(s)
  {
  }

  // ---------------------------------------------------------------------
  // Stripping

  /** Number of whitespace characters at the start of `s`. */
  function LeadingSpace(s: String): (n: nat)
    ensures n <= |s|
    ensures forall i :: 0 <= i < n ==> IsSpace(s[i])
    ensures n < |s| ==> !IsSpace(s[n])
  {
    if s == [] || !IsSpace(s[0]) then 0 else 1 + LeadingSpace(s[1..])
  }

  /** Number of whitespace characters at the end of `s`. */
  function TrailingSpace(s: String): (n: nat)
    ensures n <= |s|
    ensures forall i :: |s| - n <= i < |s| ==> IsSpace(s[i])
    ensures n < |s| ==> !IsSpace(s[|s| - 1 - n])
  {
    if s == [] || !IsSpace(s[|s| - 1]) then 0 else 1 + TrailingSpace(s[..|s| - 1])
  }

  predicate NoOuterSpace(s: String) {
    s == [] || (!IsSpace(s[0]) && !IsSpace(s[|s| - 1]))
  }

  /** `s.strip()`: the slice of `s` between its leading and its trailing whitespace. */
  function Strip(s: String): (r: String)
    ensures NoOuterSpace(r)
    ensures LeadingSpace(s) + |r| <= |s|
    ensures r == s[LeadingSpace(s)..LeadingSpace(s) + |r|]
    ensures forall i :: LeadingSpace(s) + |r| <= i < |s| ==> IsSpace(s[i])
  {
    var t := s[LeadingSpace(s)..];
    t[..|t| - TrailingSpace(t)]
  }

  /** A string without surrounding whitespace is its own strip. */
  lemma StripFixed(s: String)
    requires NoOuterSpace(s)
    ensures Strip(s) == s
  {
  }

  /** One blank in front of a name without surrounding whitespace is all
      that the strip removes. */
  lemma StripLeadingBlank(s: String)
    requires s != [] && NoOuterSpace(s)
    ensures Strip([' '] + s) == s
  {
    var t := [' '] + s;
    assert t[1..] == s;
    assert LeadingSpace(t) == 1;
    assert TrailingSpace(s) == 0;
  }

  /** Lower-casing moves no whitespace, so it commutes with stripping. */
  lemma {:induction false} StripLower(s: String)
    ensures Strip(Lower(s)) == Lower(Strip(s))
  {
    var n := LeadingSpace(s);
    var t := s[n..];
    var m := TrailingSpace(t);
    StripParts(s, n, m);
    LeadingSpaceLower(s);
    LowerSlice(s, n, |s|);
    TrailingSpaceLower(t);
    StripParts(Lower(s), n, m);
    LowerSlice(t, 0, |t| - m);
  }

  /** `Strip` cuts `n` characters at the front and then `m` at the back. */
  lemma StripParts(s: String, n: nat, m: nat)
    requires n == LeadingSpace(s) && m == TrailingSpace(s[n..])
    ensures Strip(s) == s[n..][..|s| - n - m]
  {
  }

  /** Lower-casing works character by character, so it commutes with slicing. */
  lemma LowerSlice(s: String, i: nat, j: nat)
    requires i <= j <= |s|
    ensures Lower(s)[i..j] == Lower(s[i..j])
    ensures j == |s| ==> Lower(s)[i..] == Lower(s[i..])
    ensures i == 0 ==> Lower(s)[..j] == Lower(s[..j])
  {
  }

  lemma {:induction false} LeadingSpaceLower(s: String)
    ensures LeadingSpace(Lower(s)) == LeadingSpace(s)
  {
    if s != [] && IsSpace(s[0]) {
      assert Lower(s)[1..] == Lower(s[1..]);
      LeadingSpaceLower(s[1..]);
    }
  }

  lemma {:induction false} TrailingSpaceLower(s: String)
    ensures TrailingSpace(Lower(s)) == TrailingSpace(s)
  {
    if s != [] && IsSpace(s[|s| - 1]) {
      assert Lower(s)[..|s| - 1] == Lower(s[..|s| - 1]);
      TrailingSpaceLower(s[..|s| - 1]);
    }
  }

  // ---------------------------------------------------------------------
  // Searching and splitting

  /** Position of the first `c` in `s`, as `s.find(c)` minus the -1. */
  function IndexOf(s: String, c: char): (r: Option<nat>)
    ensures r.None? <==> c !in s
    ensures r.Some? ==> r.value < |s| && s[r.value] == c && c !in s[..r.value]
  {
    if s == [] then None
    else if s[0] == c then Some(0)
    else match IndexOf(s[1..], c)
      case None => None
      case Some(i) => assert s[1..][..i] == s[1..i + 1]; Some(i + 1)
  }

  /** `s.split(sep, 1)`: at most two parts, cut at the first `sep`. */
  function SplitOnce(s: String, sep: char): (parts: seq<String>)
    ensures 1 <= |parts| <= 2
    ensures |parts| == 1 <==> sep !in s
    ensures |parts| == 1 ==> parts[0] == s
    ensures |parts| == 2 ==> s == parts[0] + [sep] + parts[1] && sep !in parts[0]
  {
    match IndexOf(s, sep)
    case None => [s]
    case Some(i) =>
      assert s == s[..i] + [sep] + s[i + 1..];
      [s[..i], s[i + 1..]]
  }

  /** Glue parts back together with `sep` between them (`sep.join(parts)`). */
  function JoinWith(parts: seq<String>, sep: char): String
    requires |parts| >= 1
  {
    if |parts| == 1 then parts[0] else parts[0] + [sep] + JoinWith(parts[1..], sep)
  }

  /** `s.split(sep)`: every part is free of `sep` and joining them gives `s` back. */
  function Split(s: String, sep: char): (parts: seq<String>)
    ensures |parts| >= 1
    ensures forall i :: 0 <= i < |parts| ==> sep !in parts[i]
    ensures JoinWith(parts, sep) == s
    decreases |s|
  {
    match IndexOf(s, sep)
    case None => [s]
    case Some(i) =>
      var rest := Split(s[i + 1..], sep);
      assert ([s[..i]] + rest)[1..] == rest;
      assert s == s[..i] + [sep] + s[i + 1..];
      [s[..i]] + rest
  }

  predicate IsPrefix(p: String, s: String) {
    |p| <= |s| && s[..|p|] == p
  }

  /** `pat in s`. */
  predicate Contains(s: String, pat: String)
    decreases |s|
  {
    IsPrefix(pat, s) || (s != [] && Contains(s[1..], pat))
  }

  /** `str.contains(pat, case=False)` for a literal pattern. */
  predicate ContainsCI(s: String, pat: String) {
    Contains(Lower(s), Lower(pat))
  }

  /** `str(x)` of a cell: a missing value prints as "nan". */
  function CellText(cell: Option<String>): String {
    if cell.Some? then cell.value else "nan"
  }

  /** `s.replace(a, b)` for single characters. */
  function ReplaceChar(s: String, a: char, b: char): (r: String)
    ensures |r| == |s|
    ensures a != b ==> a !in r
    ensures forall i :: 0 <= i < |s| && s[i] != a ==> r[i] == s[i]
  {
    seq(|s|, i requires 0 <= i < |s| => if s[i] == a then b else s[i])
  }

  // ---------------------------------------------------------------------
  // Digits and numbers

  predicate AllDigits(s: String) {
    forall i :: 0 <= i < |s| ==> IsDigit(s[i])
  }

  /** `s.isdigit()` for ASCII digits: non-empty and digits only. */
  predicate IsDigits(s: String) {
    |s| > 0 && AllDigits(s)
  }

  function DigitValue(c: char): nat
    requires IsDigit(c)
  {
    c as int - '0' as int
  }

  function DigitChar(d: nat): (c: char)
    requires d < 10
    ensures IsDigit(c) && DigitValue(c) == d
  {
    ('0' as int + d) as char
  }

  /** The value of a string of decimal digits (0 for the empty string). */
  function DigitsValue(s: String): nat
    requires AllDigits(s)
  {
    if s == [] then 0 else DigitsValue(s[..|s| - 1]) * 10 + DigitValue(s[|s| - 1])
  }

  /** `str(n)` for a natural number. */
  function NatToDecimal(n: nat): (r: String)
    ensures IsDigits(r)
    ensures ':' !in r && ' ' !in r
  {
    if n < 10 then [DigitChar(n)] else NatToDecimal(n / 10) + [DigitChar(n % 10)]
  }

  /** Printing a number and reading it back gives the number. */
  lemma {:induction false} NatToDecimalRoundTrip(n: nat)
    ensures DigitsValue(NatToDecimal(n)) == n
  {
    if n >= 10 {
      NatToDecimalRoundTrip(n / 10);
      var s := NatToDecimal(n);
      assert s[..|s| - 1] == NatToDecimal(n / 10);
    }
  }

  /** `pd.to_numeric(s, errors="coerce")` on an integer literal: an optional
      sign and ASCII digits; anything else becomes missing. */
  function ParseInt(s: String): (r: Option<int>)
    ensures r.Some? <==> IsDigits(s) || (|s| >= 2 && (s[0] == '-' || s[0] == '+') && IsDigits(s[1..]))
  {
    if IsDigits(s) then Some(DigitsValue(s))
    else if |s| >= 2 && s[0] == '-' && IsDigits(s[1..]) then Some(-(DigitsValue(s[1..]) as int))
    else if |s| >= 2 && s[0] == '+' && IsDigits(s[1..]) then Some(DigitsValue(s[1..]))
    else None
  }

  lemma ParseIntOfDecimal(n: nat)
    ensures ParseInt(NatToDecimal(n)) == Some(n)
  {
    NatToDecimalRoundTrip(n);
  }

  function Pow10(k: nat): (p: nat)
    ensures p >= 1
  {
    if k == 0 then 1 else 10 * Pow10(k - 1)
  }

  /** The number written `whole.frac`. */
  function DecimalValue(whole: String, frac: String): real
    requires AllDigits(whole) && AllDigits(frac)
  {
    DigitsValue(whole) as real + DigitsValue(frac) as real / Pow10(|frac|) as real
  }

  /** An unsigned decimal literal: digits with at most one '.', and at least one digit. */
  function UnsignedDecimal(s: String): (r: Option<real>)
    ensures r.Some? ==> r.value >= 0.0
    ensures IsDigits(s) ==> r == Some(DigitsValue(s) as real)
  {
    match IndexOf(s, '.')
    case None => if IsDigits(s) then Some(DigitsValue(s) as real) else None
    case Some(i) =>
      assert !IsDigit(s[i]);
      var whole, frac := s[..i], s[i + 1..];
      if AllDigits(whole) && AllDigits(frac) && |whole| + |frac| > 0 then
        assert DigitsValue(frac) as real / Pow10(|frac|) as real >= 0.0;
        Some(DecimalValue(whole, frac))
      else None
  }

  /** `pd.to_numeric(s, errors="coerce")` on a decimal literal with a '.' point. */
  function ParseDecimal(s: String): (r: Option<real>)
    ensures r.Some? ==> ',' !in s && ' ' !in s
  {
    var r := if |s| >= 1 && s[0] == '-' then
               (match UnsignedDecimal(s[1..]) case None => None case Some(v) => Some(-v))
             else if |s| >= 1 && s[0] == '+' then UnsignedDecimal(s[1..])
             else UnsignedDecimal(s);
    if r.Some? then DecimalCharset(s); r else r
  }

  lemma DecimalCharset(s: String)
    requires (|s| >= 1 && (s[0] == '-' || s[0] == '+') && UnsignedDecimal(s[1..]).Some?) || UnsignedDecimal(s).Some?
    ensures ',' !in s && ' ' !in s
  {
    if UnsignedDecimal(s).Some? {
      UnsignedCharset(s);
    } else {
      UnsignedCharset(s[1..]);
      assert s == [s[0]] + s[1..];
    }
  }

  lemma UnsignedCharset(s: String)
    requires UnsignedDecimal(s).Some?
    ensures forall i :: 0 <= i < |s| ==> IsDigit(s[i]) || s[i] == '.'
  {
    match IndexOf(s, '.')
    case None =>
    case Some(i) =>
      forall j | 0 <= j < |s| ensures IsDigit(s[j]) || s[j] == '.' {
        if j < i { assert s[j] == s[..i][j]; }
        else if j > i { assert s[j] == s[i + 1..][j - i - 1]; }
      }
  }

  // ---------------------------------------------------------------------
  // Padding and ordering

  /** A leading '+' or '-', which `zfill` keeps in front of the padding. */
  predicate HasSign(s: String) {
    |s| >= 1 && (s[0] == '+' || s[0] == '-')
  }

  /** `s.zfill(width)` (Python's, which `Series.str.zfill` applies): '0's up
      to `width`, after a leading sign if there is one; a string already that
      long is left as it is. */
  function ZFill(s: String, width: nat): (r: String)
    ensures |r| == if |s| >= width then |s| else width
    ensures |s| >= width ==> r == s
    ensures !HasSign(s) ==> r[|r| - |s|..] == s && forall i :: 0 <= i < |r| - |s| ==> r[i] == '0'
    ensures HasSign(s) ==> r[0] == s[0] && r[|r| - |s| + 1..] == s[1..] &&
                           forall i :: 1 <= i < |r| - |s| + 1 ==> r[i] == '0'
  {
    if |s| >= width then s
    else if HasSign(s) then [s[0]] + seq(width - |s|, _ => '0') + s[1..]
    else seq(width - |s|, _ => '0') + s
  }

  /** Reading digits `a` then digits `b`: `a` shifted left by `|b|` places, plus `b`. */
  lemma {:induction false} DigitsConcat(a: String, b: String)
    requires AllDigits(a) && AllDigits(b)
    ensures AllDigits(a + b)
    ensures DigitsValue(a + b) == DigitsValue(a) * Pow10(|b|) + DigitsValue(b)
  {
    if b == [] {
      assert a + b == a;
    } else {
      var b' := b[..|b| - 1];
      assert (a + b)[..|a + b| - 1] == a + b';
      DigitsConcat(a, b');
      var d := DigitValue(b[|b| - 1]);
      assert DigitsValue(a + b) == DigitsValue(a + b') * 10 + d;
      assert DigitsValue(b) == DigitsValue(b') * 10 + d;
      ShiftStep(DigitsValue(a), Pow10(|b'|), DigitsValue(b'), d);
    }
  }

  lemma ShiftStep(x: int, p: int, y: int, d: int)
    ensures (x * p + y) * 10 + d == x * (10 * p) + (y * 10 + d)
  {
  }

  /** `k` digits are worth less than `10^k`. */
  lemma {:induction false} DigitsBelow(s: String)
    requires AllDigits(s)
    ensures DigitsValue(s) < Pow10(|s|)
  {
    if s != [] {
      DigitsBelow(s[..|s| - 1]);
    }
  }

  lemma {:induction false} ZerosValue(n: nat)
    ensures AllDigits(seq(n, _ => '0')) && DigitsValue(seq(n, _ => '0')) == 0
  {
    if n > 0 {
      assert seq(n, _ => '0')[..n - 1] == seq(n - 1, _ => '0');
      ZerosValue(n - 1);
    }
  }

  /** Zero-padding a string of digits keeps it a string of digits worth the same. */
  lemma ZFillDigits(s: String, width: nat)
    requires AllDigits(s)
    ensures AllDigits(ZFill(s, width)) && DigitsValue(ZFill(s, width)) == DigitsValue(s)
  {
    if |s| < width {
      ZerosValue(width - |s|);
      DigitsConcat(seq(width - |s|, _ => '0'), s);
    }
  }

  /** Padding an already padded string changes nothing. */
  lemma ZFillIdempotent(s: String, width: nat)
    ensures ZFill(ZFill(s, width), width) == ZFill(s, width)
  {
  }

  /** Python's `a < b` on strings: code-point lexicographic order. */
  predicate LexLess(a: String, b: String) {
    if a == [] then b != []
    else if b == [] then false
    else if a[0] != b[0] then a[0] < b[0]
    else LexLess(a[1..], b[1..])
  }

  lemma {:induction false} LexIrreflexive(a: String)
    ensures !LexLess(a, a)
  {
    if a != [] { LexIrreflexive(a[1..]); }
  }

  lemma {:induction false} LexTransitive(a: String, b: String, c: String)
    requires LexLess(a, b) && LexLess(b, c)
    ensures LexLess(a, c)
  {
    if a != [] && b != [] && c != [] && a[0] == b[0] && b[0] == c[0] {
      LexTransitive(a[1..], b[1..], c[1..]);
    }
  }

  lemma {:induction false} LexTotal(a: String, b: String)
    requires a != b
    ensures LexLess(a, b) || LexLess(b, a)
  {
    if a != [] && b != [] && a[0] == b[0] {
      assert a == [a[0]] + a[1..] && b == [b[0]] + b[1..];
      LexTotal(a[1..], b[1..]);
    }
  }

  lemma {:induction false} LexAsymmetric(a: String, b: String)
    requires LexLess(a, b)
    ensures !LexLess(b, a)
  {
    if a != [] && b != [] && a[0] == b[0] {
      LexAsymmetric(a[1..], b[1..]);
    }
  }
}
