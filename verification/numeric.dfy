/** Census cells are text such as "74,004". The pipeline strips the thousands
    separators and parses what is left, turning anything unparseable into a null.
    The parser below accepts an optional sign, decimal digits and an optional
    fractional part; it stands for the numeric grammar of `pd.to_numeric`. */
module Numeric {
  import opened Wrappers
  import Text

  predicate IsDigit(c: char) {
    '0' <= c <= '9'
  }

  function DigitValue(c: char): nat
    requires IsDigit(c)
  {
    c as int - '0' as int
  }

  function DigitChar(d: nat): (c: char)
    requires d < 10
    ensures IsDigit(c) && DigitValue(c) == d
  {
    ('0' as int + d) as char
  }

  predicate AllDigits(s: string) {
    forall i :: 0 <= i < |s| ==> IsDigit(s[i])
  }

  /** The value of a decimal digit string, most significant digit first. */
  function DigitsValue(d: string): nat
    requires AllDigits(d)
  {
    if d == [] then 0 else 10 * DigitsValue(d[..|d| - 1]) + DigitValue(d[|d| - 1])
  }

  function Pow10(k: nat): (p: nat)
    ensures p > 0
  {
    if k == 0 then 1 else 10 * Pow10(k - 1)
  }

  /** Position of the first `c` in `s`, or `|s|` when there is none. */
  function IndexOf(s: string, c: char): (k: nat)
    ensures k <= |s|
    ensures k < |s| ==> s[k] == c
    ensures forall i :: 0 <= i < k ==> s[i] != c
  {
    if s == [] then 0 else if s[0] == c then 0 else 1 + IndexOf(s[1..], c)
  }

  /** An unsigned decimal: digits, optionally followed by a point and more digits,
      with at least one digit on some side of the point. */
  function ParseUnsigned(t: string): (r: Option<real>)
    ensures r.Some? ==> r.value >= 0.0
    ensures r.Some? ==> exists i :: 0 <= i < |t| && IsDigit(t[i])
    ensures r.Some? ==> forall i :: 0 <= i < |t| ==> IsDigit(t[i]) || t[i] == '.'
  {
    var k := IndexOf(t, '.');
    var whole := t[..k];
    var frac := if k < |t| then t[k + 1..] else [];
    if AllDigits(whole) && AllDigits(frac) && (whole != [] || frac != []) then
      assert whole != [] ==> IsDigit(t[0]);
      assert whole == [] ==> IsDigit(t[k + 1]);
      Some(DigitsValue(whole) as real + DigitsValue(frac) as real / Pow10(|frac|) as real)
    else
      None
  }

  /** The numeric value of a cell, or `None` (NaN) when the text is not a number. */
  function ParseNumeric(s: string): (r: Option<real>)
    ensures r.Some? ==> exists i :: 0 <= i < |s| && IsDigit(s[i])
    ensures r.Some? ==> ',' !in s
  {
    if s == [] then None
    else if s[0] == '-' then
      match ParseUnsigned(s[1..])
      case Some(v) => Some(-v)
      case None => None
    else if s[0] == '+' then ParseUnsigned(s[1..])
    else ParseUnsigned(s)
  }

  /** The census conversion of one cell: remove every ",", then parse. */
  function CensusValue(cell: string): (r: Option<real>)
  {
    ParseNumeric(Text.RemoveChar(cell, ','))
  }

  /** The decimal representation of `n`, without leading zeros. */
  function DigitString(n: nat): (d: string)
    ensures d != [] && AllDigits(d)
  {
    if n < 10 then [DigitChar(n)] else DigitString(n / 10) + [DigitChar(n % 10)]
  }

  /** `d` with a "," before every group of three digits counted from the right. */
  function WithSeparators(d: string): (r: string)
  {
    if |d| <= 3 then d else WithSeparators(d[..|d| - 3]) + [','] + d[|d| - 3..]
  }

  lemma {:induction false} DigitStringValue(n: nat)
    ensures DigitsValue(DigitString(n)) == n
  {
    if n >= 10 {
      DigitStringValue(n / 10);
      var d := DigitString(n);
      assert d[..|d| - 1] == DigitString(n / 10);
    }
  }

  /** Printing a count and parsing it back gives the count. */
  lemma ParseDigitString(n: nat)
    ensures ParseNumeric(DigitString(n)) == Some(n as real)
  {
    var d := DigitString(n);
    DigitStringValue(n);
    assert IsDigit(d[0]);
    assert IndexOf(d, '.') == |d|;
    assert d[..|d|] == d;
  }

  /** Removing the separators undoes `WithSeparators`. */
  lemma {:induction false} RemoveSeparators(d: string)
    requires ',' !in d
    ensures Text.RemoveChar(WithSeparators(d), ',') == d
  {
    if |d| > 3 {
      var a, b := d[..|d| - 3], d[|d| - 3..];
      assert ',' !in a && ',' !in b;
      RemoveSeparators(a);
      Text.RemoveCharAppend(WithSeparators(a) + [','], b, ',');
      Text.RemoveCharAppend(WithSeparators(a), [','], ',');
      Text.RemoveCharAbsent(b, ',');
      assert a + b == d;
    } else {
      Text.RemoveCharAbsent(d, ',');
    }
  }

  /** A count written with thousands separators ("1,234,567") is read back exactly. */
  lemma CensusValueRoundTrip(n: nat)
    ensures CensusValue(WithSeparators(DigitString(n))) == Some(n as real)
  {
    var d := DigitString(n);
    assert forall i :: 0 <= i < |d| ==> d[i] != ',';
    RemoveSeparators(d);
    ParseDigitString(n);
  }

  /** A cell holding a separator is only numeric after the separators are stripped;
      a cell without any digit ("N", "(X)", "") is always null. */
  lemma CensusValueNoDigit(cell: string)
    requires forall i :: 0 <= i < |cell| ==> !IsDigit(cell[i])
    ensures CensusValue(cell) == None
  {
    var t := Text.RemoveChar(cell, ',');
    assert forall i :: 0 <= i < |t| ==> t[i] in cell;
  }
}
