/** String operations used by the cleaner: `str.strip`, `str.split`, substring tests and
    `str.replace(old, "")`. Strings are sequences of Unicode scalar values. */
module Text {

  /** Python's `str.isspace` characters, the set `str.strip()` removes. */
  predicate IsWhitespace(c: char) {
    c == ' ' || ('\t' <= c <= '\r') || ('\U{1C}' <= c <= '\U{1F}')
    || c == '\U{85}' || c == '\U{A0}' || c == '\U{1680}'
    || ('\U{2000}' <= c <= '\U{200A}') || c == '\U{2028}' || c == '\U{2029}'
    || c == '\U{202F}' || c == '\U{205F}' || c == '\U{3000}'
  }

  /** The number of whitespace characters `s` starts with. */
  function LeadingSpace(s: string): (n: nat)
    ensures n <= |s|
    ensures forall k :: 0 <= k < n ==> IsWhitespace(s[k])
    ensures n < |s| ==> !IsWhitespace(s[n])
  {
    if s != [] && IsWhitespace(s[0]) then 1 + LeadingSpace(s[1..]) else 0
  }

  /** The number of whitespace characters `s` ends with. */
  function TrailingSpace(s: string): (n: nat)
    ensures n <= |s|
    ensures forall k :: |s| - n <= k < |s| ==> IsWhitespace(s[k])
    ensures n < |s| ==> !IsWhitespace(s[|s| - n - 1])
  {
    if s != [] && IsWhitespace(s[|s| - 1]) then 1 + TrailingSpace(s[..|s| - 1]) else 0
  }

  /** `s.lstrip()`. */
  function StripStart(s: string): string {
    s[LeadingSpace(s)..]
  }

  /** `s.rstrip()`. */
  function StripEnd(s: string): string {
    s[..|s| - TrailingSpace(s)]
  }

  /** `s.strip()`. */
  function Strip(s: string): string {
    StripEnd(StripStart(s))
  }

  /** A stripped string neither starts nor ends with whitespace, and it is the
      middle of `s` once the whitespace-only margins are cut off. */
  lemma StripShape(s: string)
    ensures var r, i := Strip(s), LeadingSpace(s);
      && (r == [] || (!IsWhitespace(r[0]) && !IsWhitespace(r[|r| - 1])))
      && 0 <= i <= i + |r| <= |s| && r == s[i..i + |r|]
      && (forall k :: 0 <= k < i ==> IsWhitespace(s[k]))
      && (forall k :: i + |r| <= k < |s| ==> IsWhitespace(s[k]))
  {
    StripMiddle(s);
    StripEdges(s);
    StripTail(s);
  }

  lemma StripMiddle(s: string)
    ensures var i, t := LeadingSpace(s), StripStart(s);
      Strip(s) == s[i..i + |t| - TrailingSpace(t)]
  {
    var i, t := LeadingSpace(s), StripStart(s);
    assert t[..|t| - TrailingSpace(t)] == s[i..i + |t| - TrailingSpace(t)];
  }

  lemma StripEdges(s: string)
    ensures var r := Strip(s); r == [] || (!IsWhitespace(r[0]) && !IsWhitespace(r[|r| - 1]))
  {
    var t := StripStart(s);
    var r := StripEnd(t);
    if r != [] {
      assert r[0] == t[0] == s[LeadingSpace(s)];
      assert r[|r| - 1] == t[|r| - 1];
    }
  }

  lemma StripTail(s: string)
    ensures var i, t := LeadingSpace(s), StripStart(s);
      forall k :: i + |t| - TrailingSpace(t) <= k < |s| ==> IsWhitespace(s[k])
  {
    var i, t := LeadingSpace(s), StripStart(s);
    forall k | i + |t| - TrailingSpace(t) <= k < |s| ensures IsWhitespace(s[k]) {
      assert s[k] == t[k - i];
    }
  }

  /** A string without whitespace margins is its own strip; so stripping is idempotent. */
  lemma StripIdempotent(s: string)
    ensures Strip(Strip(s)) == Strip(s)
  {
    var r := Strip(s);
    StripShape(s);
    assert LeadingSpace(r) == 0;
    assert StripStart(r) == r;
    assert TrailingSpace(r) == 0;
    assert StripEnd(r) == r;
  }

  /** `s.split(sep)`: the maximal `sep`-free pieces between separators (never empty). */
  function Split(s: string, sep: char): (r: seq<string>)
    ensures |r| >= 1
    ensures forall k :: 0 <= k < |r| ==> sep !in r[k]
  {
    if s == [] then [[]]
    else
      var rest := Split(s[1..], sep);
      if s[0] == sep then [[]] + rest
      else [[s[0]] + rest[0]] + rest[1..]
  }

  /** `sep.join(parts)`, the inverse of `Split`. */
  function Join(parts: seq<string>, sep: char): string
    requires |parts| >= 1
  {
    if |parts| == 1 then parts[0] else parts[0] + [sep] + Join(parts[1..], sep)
  }

  /** Splitting loses nothing: joining the pieces back gives the original string. */
  lemma {:induction false} JoinSplit(s: string, sep: char)
    ensures Join(Split(s, sep), sep) == s
  {
    if s != [] {
      var rest := Split(s[1..], sep);
      JoinSplit(s[1..], sep);
      if s[0] != sep {
        var r := Split(s, sep);
        assert r[1..] == rest[1..];
        if |rest| == 1 {
          assert Join(r, sep) == [s[0]] + rest[0];
        } else {
          assert Join(r, sep) == [s[0]] + rest[0] + [sep] + Join(rest[1..], sep);
        }
      }
    }
  }

  /** The last piece of a split: the text after the final separator. */
  function LastPiece(s: string, sep: char): string {
    var parts := Split(s, sep);
    parts[|parts| - 1]
  }

  /** A string without the separator splits into itself alone. */
  lemma {:induction false} SplitWithoutSeparator(s: string, sep: char)
    requires sep !in s
    ensures Split(s, sep) == [s]
    ensures LastPiece(s, sep) == s
  {
    if s != [] {
      assert sep !in s[1..];
      SplitWithoutSeparator(s[1..], sep);
      assert [s[0]] + s[1..] == s;
    }
  }

  /** The last piece is whatever follows the final separator. */
  lemma {:induction false} LastPieceAfterSeparator(a: string, b: string, sep: char)
    requires sep !in b
    ensures LastPiece(a + [sep] + b, sep) == b
  {
    var s := a + [sep] + b;
    if a == [] {
      assert s[1..] == b;
      SplitWithoutSeparator(b, sep);
    } else {
      assert s[1..] == a[1..] + [sep] + b;
      LastPieceAfterSeparator(a[1..], b, sep);
      var rest := Split(s[1..], sep);
      assert |rest| >= 2 || s[0] == sep || |rest| == 1;
      SplitLengthWithSeparator(a[1..] + [sep] + b, sep);
    }
  }

  /** A string holding the separator splits into at least two pieces. */
  lemma {:induction false} SplitLengthWithSeparator(s: string, sep: char)
    requires sep in s
    ensures |Split(s, sep)| >= 2
  {
    if s[0] != sep {
      SplitLengthWithSeparator(s[1..], sep);
    }
  }

  /** `frag in s` for strings: `frag` occurs as a contiguous block of `s`. */
  predicate Contains(s: string, frag: string) {
    |frag| <= |s| && (s[..|frag|] == frag || Contains(s[1..], frag))
  }

  /** `s.replace(c, "")` for one character: every `c` removed, the rest kept in order. */
  function RemoveChar(s: string, c: char): (r: string)
    ensures c !in r
    ensures |r| <= |s|
    ensures forall x :: x in r <==> x in s && x != c
  {
    if s == [] then []
    else if s[0] == c then RemoveChar(s[1..], c)
    else [s[0]] + RemoveChar(s[1..], c)
  }

  /** Removing a character distributes over concatenation. */
  lemma {:induction false} RemoveCharAppend(a: string, b: string, c: char)
    ensures RemoveChar(a + b, c) == RemoveChar(a, c) + RemoveChar(b, c)
  {
    if a != [] {
      assert (a + b)[1..] == a[1..] + b;
      assert (a + b)[0] == a[0];
      RemoveCharAppend(a[1..], b, c);
      if a[0] != c {
        assert RemoveChar(a + b, c) == [a[0]] + RemoveChar(a[1..] + b, c);
        assert RemoveChar(a, c) == [a[0]] + RemoveChar(a[1..], c);
      }
    } else {
      assert a + b == b;
    }
  }

  /** A string without `c` is left alone. */
  lemma {:induction false} RemoveCharAbsent(s: string, c: char)
    requires c !in s
    ensures RemoveChar(s, c) == s
  {
    if s != [] {
      assert c !in s[1..];
      RemoveCharAbsent(s[1..], c);
    }
  }

  /** `s.replace(pat, "")`: occurrences of `pat` removed in one left-to-right scan,
      as Python does (a removal can bring a new occurrence together; it stays). */
  function RemoveAll(s: string, pat: string): (r: string)
    requires |pat| > 0
    ensures |r| <= |s|
  {
    if |s| >= |pat| && s[..|pat|] == pat then RemoveAll(s[|pat|..], pat)
    else if s == [] then []
    else [s[0]] + RemoveAll(s[1..], pat)
  }

  /** A column header `name + pat` loses exactly its suffix, as long as `name` does
      not contain the first character of `pat` (no occurrence can start inside `name`). */
  lemma {:induction false} RemoveAllSuffix(name: string, pat: string)
    requires |pat| > 0 && pat[0] !in name
    ensures RemoveAll(name + pat, pat) == name
  {
    var s := name + pat;
    if name == [] {
      assert s[..|pat|] == pat;
      assert s[|pat|..] == [];
    } else {
      assert s[0] == name[0] != pat[0];
      assert s[1..] == name[1..] + pat;
      assert pat[0] !in name[1..];
      RemoveAllSuffix(name[1..], pat);
    }
  }
}
