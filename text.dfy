/**
 * String operations that the backend (Python) and the frontend (JavaScript)
 * rely on: whitespace classes, trimming, splitting on a separator, literal
 * replacement, prefix/suffix/substring tests, lower-casing, lexicographic
 * order and decimal rendering of integers.
 */
module Text {

  // ---------------------------------------------------------------------
  // Whitespace classes
  // ---------------------------------------------------------------------

  /** Python's whitespace (`str.isspace`, also what `re`'s `\s` and `str.strip()` use). */
  predicate IsPySpace(c: char)
  {
    || c == '\t' || c == '\n' || c == '\U{000B}' || c == '\U{000C}' || c == '\r'
    || ('\U{001C}' <= c <= '\U{001F}')
    || c == ' ' || c == '\U{0085}' || c == '\U{00A0}' || c == '\U{1680}'
    || ('\U{2000}' <= c <= '\U{200A}')
    || c == '\U{2028}' || c == '\U{2029}' || c == '\U{202F}' || c == '\U{205F}' || c == '\U{3000}'
  }

  /** ECMAScript's WhiteSpace and LineTerminator, the characters `String.prototype.trim` removes. */
  predicate IsJsSpace(c: char)
  {
    || c == '\t' || c == '\n' || c == '\U{000B}' || c == '\U{000C}' || c == '\r'
    || c == ' ' || c == '\U{00A0}' || c == '\U{1680}'
    || ('\U{2000}' <= c <= '\U{200A}')
    || c == '\U{2028}' || c == '\U{2029}' || c == '\U{202F}' || c == '\U{205F}' || c == '\U{3000}'
    || c == '\U{FEFF}'
  }

  /**
   * Where the two whitespace classes part: Python alone counts the information
   * separators U+001C..U+001F and NEL U+0085, JavaScript alone the byte order mark.
   */
  lemma SpaceClassesDiffer(c: char)
    ensures IsPySpace(c) && !IsJsSpace(c) <==> '\U{001C}' <= c <= '\U{001F}' || c == '\U{0085}'
    ensures IsJsSpace(c) && !IsPySpace(c) <==> c == '\U{FEFF}'
  {
  }

  /** Every character of `s` satisfies `ws`. */
  predicate AllSatisfy(ws: char -> bool, s: string)
  {
    forall k :: 0 <= k < |s| ==> ws(s[k])
  }

  // ---------------------------------------------------------------------
  // Trimming
  // ---------------------------------------------------------------------

  /** Drops the leading characters satisfying `ws`: what remains does not start with one. */
  function TrimStart(ws: char -> bool, s: string): (r: string)
    ensures |r| <= |s|
    ensures r != [] ==> !ws(r[0])
  {
    if s != [] && ws(s[0]) then TrimStart(ws, s[1..]) else s
  }

  /** What `TrimStart` leaves is a suffix of `s`, and every character it drops satisfies `ws`. */
  lemma {:induction false} TrimStartSuffix(ws: char -> bool, s: string)
    ensures var r := TrimStart(ws, s);
      && r == s[|s| - |r|..]
      && forall k :: 0 <= k < |s| - |r| ==> ws(s[k])
    decreases |s|
  {
    if s != [] && ws(s[0]) {
      TrimStartSuffix(ws, s[1..]);
      var r := TrimStart(ws, s);
      assert s[1..][|s| - 1 - |r|..] == s[|s| - |r|..];
      assert forall k :: 1 <= k < |s| - |r| ==> s[k] == s[1..][k - 1];
    }
  }

  /** Drops the trailing characters satisfying `ws`: what remains is a prefix of `s` that does not end with one. */
  function TrimEnd(ws: char -> bool, s: string): (r: string)
    ensures |r| <= |s| && r == s[..|r|]
    ensures r != [] ==> !ws(r[|r| - 1])
    ensures forall k :: |r| <= k < |s| ==> ws(s[k])
  {
    if s != [] && ws(s[|s| - 1]) then TrimEnd(ws, s[..|s| - 1]) else s
  }

  /**
   * Python's `strip()` and JavaScript's `trim()` with the whitespace class `ws`:
   * the middle of `s` between its leading and trailing whitespace runs.
   */
  function Trim(ws: char -> bool, s: string): (r: string)
    ensures r != [] ==> !ws(r[0]) && !ws(r[|r| - 1])
    ensures r == [] <==> AllSatisfy(ws, s)
  {
    var t := TrimStart(ws, s);
    TrimStartOfBlank(ws, s);
    var r := TrimEnd(ws, t);
    assert r != [] ==> r[0] == t[0];
    r
  }

  /** The leading whitespace run covers all of `s` exactly when `s` is blank. */
  lemma TrimStartOfBlank(ws: char -> bool, s: string)
    ensures TrimEnd(ws, TrimStart(ws, s)) == [] <==> AllSatisfy(ws, s)
  {
    var t := TrimStart(ws, s);
    TrimStartSuffix(ws, s);
    if TrimEnd(ws, t) == [] {
      assert t == [];
    } else {
      assert !ws(t[0]);
      assert s[|s| - |t|] == t[0];
    }
  }

  /** The trimmed text is a contiguous part of `s`, starting where the leading whitespace ends. */
  lemma TrimIsInfix(ws: char -> bool, s: string)
    ensures |s| - |TrimStart(ws, s)| + |Trim(ws, s)| <= |s|
    ensures Trim(ws, s) == s[|s| - |TrimStart(ws, s)|..|s| - |TrimStart(ws, s)| + |Trim(ws, s)|]
  {
    TrimStartSuffix(ws, s);
  }

  /** A string with no `ws` character is its own trim. */
  lemma {:induction false} TrimWithoutSpace(ws: char -> bool, s: string)
    requires forall k :: 0 <= k < |s| ==> !ws(s[k])
    ensures Trim(ws, s) == s
  {
    assert TrimStart(ws, s) == s;
    assert TrimEnd(ws, s) == s;
  }

  /** `!s.trim()` / `not s.strip()`: the text is empty or whitespace only. */
  predicate IsBlank(ws: char -> bool, s: string)
    ensures IsBlank(ws, s) <==> AllSatisfy(ws, s)
  {
    Trim(ws, s) == []
  }

  // ---------------------------------------------------------------------
  // Prefixes, suffixes, substrings
  // ---------------------------------------------------------------------

  predicate StartsWith(s: string, prefix: string)
  {
    |prefix| <= |s| && s[..|prefix|] == prefix
  }

  predicate EndsWith(s: string, suffix: string)
  {
    |suffix| <= |s| && s[|s| - |suffix|..] == suffix
  }

  /** Python's `pat in s` on strings. */
  predicate Contains(s: string, pat: string)
    decreases |s|
  {
    StartsWith(s, pat) || (s != [] && Contains(s[1..], pat))
  }

  /** An occurrence inside a suffix is an occurrence in the whole string. */
  lemma {:induction false} ContainsInSuffix(s: string, pat: string, i: nat)
    requires i <= |s| && StartsWith(s[i..], pat)
    ensures Contains(s, pat)
    decreases i
  {
    if i > 0 {
      assert s[1..][i - 1..] == s[i..];
      ContainsInSuffix(s[1..], pat, i - 1);
    }
  }

  lemma ConcatEnds(a: string, b: string)
    ensures StartsWith(a + b, a) && EndsWith(a + b, b)
  {
    assert (a + b)[..|a|] == a;
    assert (a + b)[|a + b| - |b|..] == b;
  }

  // ---------------------------------------------------------------------
  // Case mapping
  // ---------------------------------------------------------------------

  /** Lower-cases the ASCII letters and leaves every other character alone. */
  function LowerChar(c: char): char
  {
    if 'A' <= c <= 'Z' then (c as int + 32) as char else c
  }

  /** `str.lower()` restricted to ASCII letters. */
  function Lower(s: string): (r: string)
    ensures |r| == |s| && forall k :: 0 <= k < |s| ==> r[k] == LowerChar(s[k])
  {
    seq(|s|, k requires 0 <= k < |s| => LowerChar(s[k]))
  }

  /** A text that ends in a pattern without capitals still contains the pattern after lower-casing. */
  lemma LowerKeepsLowerSuffix(prefix: string, pat: string)
    requires forall k :: 0 <= k < |pat| ==> !('A' <= pat[k] <= 'Z')
    ensures Contains(Lower(prefix + pat), pat)
  {
    var l := Lower(prefix + pat);
    assert forall k :: 0 <= k < |pat| ==> l[|prefix| + k] == pat[k];
    assert l[|prefix|..][..|pat|] == pat;
    ContainsInSuffix(l, pat, |prefix|);
  }

  // ---------------------------------------------------------------------
  // Replacement
  // ---------------------------------------------------------------------

  /** `s.replace(a, b)` for single characters: every `a` becomes `b`, the rest is kept. */
  function ReplaceChar(s: string, a: char, b: char): (r: string)
    ensures |r| == |s|
    ensures forall k :: 0 <= k < |s| ==> r[k] == if s[k] == a then b else s[k]
  {
    seq(|s|, k requires 0 <= k < |s| => if s[k] == a then b else s[k])
  }

  /** `s.replace(pat, rep)`: non-overlapping occurrences of `pat`, scanned from the left, become `rep`. */
  function ReplaceAll(s: string, pat: string, rep: string): string
    requires pat != []
    decreases |s|
  {
    if |s| < |pat| then s
    else if s[..|pat|] == pat then rep + ReplaceAll(s[|pat|..], pat, rep)
    else [s[0]] + ReplaceAll(s[1..], pat, rep)
  }

  /** Removing a pattern that starts with a character absent from `s`, from `s + pat`, gives `s` back. */
  lemma {:induction false} RemoveTrailingPattern(s: string, pat: string)
    requires pat != [] && pat[0] !in s
    ensures ReplaceAll(s + pat, pat, "") == s
  {
    if s == [] {
      assert (s + pat)[..|pat|] == pat;
      assert (s + pat)[|pat|..] == [];
    } else {
      assert (s + pat)[0] != pat[0];
      assert (s + pat)[1..] == s[1..] + pat;
      RemoveTrailingPattern(s[1..], pat);
    }
  }

  // ---------------------------------------------------------------------
  // Splitting and joining on a separator character
  // ---------------------------------------------------------------------

  /** `s.split(d)`: the pieces between separators, at least one of them. */
  function Split(s: string, d: char): (parts: seq<string>)
    ensures |parts| >= 1
    ensures forall i :: 0 <= i < |parts| ==> d !in parts[i]
  {
    if s == [] then [[]]
    else
      var rest := Split(s[1..], d);
      if s[0] == d then [[]] + rest else [[s[0]] + rest[0]] + rest[1..]
  }

  /** `d.join(parts)`. */
  function Join(parts: seq<string>, d: char): string
    requires |parts| >= 1
  {
    if |parts| == 1 then parts[0] else parts[0] + [d] + Join(parts[1..], d)
  }

  lemma {:induction false} SplitWithoutSeparator(p: string, d: char)
    requires d !in p
    ensures Split(p, d) == [p]
  {
    if p != [] {
      SplitWithoutSeparator(p[1..], d);
      assert [p[0]] + p[1..] == p;
    }
  }

  lemma {:induction false} SplitAfterPiece(p: string, rest: string, d: char)
    requires d !in p
    ensures Split(p + [d] + rest, d) == [p] + Split(rest, d)
  {
    var s := p + [d] + rest;
    if p == [] {
      assert s[0] == d && s[1..] == rest;
    } else {
      assert s[0] == p[0] && s[1..] == p[1..] + [d] + rest;
      SplitAfterPiece(p[1..], rest, d);
      assert [p[0]] + p[1..] == p;
    }
  }

  /** Splitting a join of separator-free pieces gives the pieces back. */
  lemma {:induction false} SplitJoin(parts: seq<string>, d: char)
    requires |parts| >= 1
    requires forall i :: 0 <= i < |parts| ==> d !in parts[i]
    ensures Split(Join(parts, d), d) == parts
  {
    if |parts| == 1 {
      SplitWithoutSeparator(parts[0], d);
    } else {
      SplitJoin(parts[1..], d);
      SplitAfterPiece(parts[0], Join(parts[1..], d), d);
      assert [parts[0]] + parts[1..] == parts;
    }
  }

  /** Joining the pieces of a split gives the original string back. */
  lemma {:induction false} JoinSplit(s: string, d: char)
    ensures Join(Split(s, d), d) == s
  {
    if s != [] {
      JoinSplit(s[1..], d);
      var rest := Split(s[1..], d);
      if s[0] == d {
        assert Split(s, d)[1..] == rest;
      } else {
        var parts := Split(s, d);
        assert parts[1..] == rest[1..];
        if |rest| > 1 {
          assert Join(rest, d) == rest[0] + [d] + Join(rest[1..], d);
        }
      }
    }
  }

  /** A string splits into more than one piece exactly when it contains the separator. */
  lemma SplitCount(s: string, d: char)
    ensures |Split(s, d)| > 1 <==> d in s
  {
    if d !in s {
      SplitWithoutSeparator(s, d);
    } else {
      JoinSplit(s, d);
    }
  }

  // ---------------------------------------------------------------------
  // Lexicographic order (Python's `<=` on `str`: code point by code point)
  // ---------------------------------------------------------------------

  predicate StrLe(a: string, b: string)
  {
    if a == [] then true
    else if b == [] then false
    else if a[0] != b[0] then a[0] < b[0]
    else StrLe(a[1..], b[1..])
  }

  lemma {:induction false} StrLeTotal(a: string, b: string)
    ensures StrLe(a, b) || StrLe(b, a)
  {
    if a != [] && b != [] && a[0] == b[0] {
      StrLeTotal(a[1..], b[1..]);
    }
  }

  lemma {:induction false} StrLeTransitive(a: string, b: string, c: string)
    requires StrLe(a, b) && StrLe(b, c)
    ensures StrLe(a, c)
  {
    if a != [] && b != [] && c != [] && a[0] == b[0] == c[0] {
      StrLeTransitive(a[1..], b[1..], c[1..]);
    }
  }

  // ---------------------------------------------------------------------
  // Decimal numerals
  // ---------------------------------------------------------------------

  predicate IsDigit(c: char)
  {
    '0' as int <= c as int <= '9' as int
  }

  function DigitChar(d: nat): char
    requires d < 10
  {
    ('0' as int + d) as char
  }

  /** The decimal numeral of `n`, as `String(n)` / `str(n)` print it: no sign, no leading zero. */
  function NatToString(n: nat): (r: string)
    ensures |r| >= 1
    ensures forall k :: 0 <= k < |r| ==> IsDigit(r[k])
    ensures |r| > 1 ==> r[0] != '0'
    decreases n
  {
    if n < 10 then [DigitChar(n)] else NatToString(n / 10) + [DigitChar(n % 10)]
  }

  function DigitValue(c: char): nat
    requires IsDigit(c)
  {
    c as int - '0' as int
  }

  /** The value of a string of decimal digits. */
  function DigitsValue(s: string): nat
    requires forall k :: 0 <= k < |s| ==> IsDigit(s[k])
  {
    if s == [] then 0 else 10 * DigitsValue(s[..|s| - 1]) + DigitValue(s[|s| - 1])
  }

  /** Reading back a numeral yields the number it was made from. */
  lemma {:induction false} NatToStringRoundTrip(n: nat)
    ensures DigitsValue(NatToString(n)) == n
    decreases n
  {
    var r := NatToString(n);
    if n >= 10 {
      NatToStringRoundTrip(n / 10);
      assert r[..|r| - 1] == NatToString(n / 10);
    }
  }

  /** `String(i)` on an integer: a minus sign before the numeral of a negative value. */
  function IntToString(i: int): (r: string)
    ensures i >= 0 ==> r == NatToString(i)
    ensures i < 0 ==> r == "-" + NatToString(-i)
  {
    if i < 0 then "-" + NatToString(-i) else NatToString(i)
  }

  // ---------------------------------------------------------------------
  // Encoded size
  // ---------------------------------------------------------------------

  /** Number of bytes of `c` in UTF-8. */
  function Utf8Width(c: char): nat
  {
    if c as int < 0x80 then 1 else if c as int < 0x800 then 2 else if c as int < 0x10000 then 3 else 4
  }

  /** Number of bytes of `s` in UTF-8, the size a store reports for an uploaded body. */
  function Utf8Length(s: string): (n: nat)
    ensures |s| <= n <= 4 * |s|
  {
    if s == [] then 0 else Utf8Width(s[0]) + Utf8Length(s[1..])
  }
}
