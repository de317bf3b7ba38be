/** String utilities with Python's semantics: `str.strip`, `in`, `find`,
    `rfind`, `startswith`, `split` on one character, `join`, and decimal
    digits.  Strings are sequences of Unicode scalar values. */
module Text {
  import opened Wrappers

  /** The characters Python's `str.isspace()` (and so `str.strip()` and the
      regular-expression class `\s`) treats as whitespace. */
  predicate IsSpace(c: char) {
    || c == ' '
    || ('\t' <= c <= '\r')
    || ('\U{1C}' <= c <= '\U{1F}')
    || c == '\U{85}' || c == '\U{A0}' || c == '\U{1680}'
    || ('\U{2000}' <= c <= '\U{200A}')
    || c == '\U{2028}' || c == '\U{2029}' || c == '\U{202F}' || c == '\U{205F}'
    || c == '\U{3000}'
  }

  /** An ASCII decimal digit, the digits the regular expression `\d` is
      taken to match in this model. */
  predicate IsDigit(c: char) {
    '0' <= c <= '9'
  }

  predicate AllDigits(s: string) {
    forall i :: 0 <= i < |s| ==> IsDigit(s[i])
  }

  function DigitValue(c: char): (d: nat)
    requires IsDigit(c)
    ensures d < 10
  {
    (c as int) - ('0' as int)
  }

  function DigitChar(d: nat): (c: char)
    requires d < 10
    ensures IsDigit(c) && DigitValue(c) == d
  {
    (('0' as int) + d) as char
  }

  // ---------------------------------------------------------------------
  // Stripping

  /** The index of the first character at or after `i` that is not
      whitespace, or `|s|` when there is none. */
  function SkipSpaces(s: string, i: nat): (j: nat)
    requires i <= |s|
    ensures i <= j <= |s|
    ensures forall k :: i <= k < j ==> IsSpace(s[k])
    ensures j < |s| ==> !IsSpace(s[j])
    decreases |s| - i
  {
    if i < |s| && IsSpace(s[i]) then SkipSpaces(s, i + 1) else i
  }

  /** The index just after the last character before `j`, and not before
      `lo`, that is not whitespace, or `lo` when there is none. */
  function SkipSpacesBack(s: string, lo: nat, j: nat): (i: nat)
    requires lo <= j <= |s|
    ensures lo <= i <= j
    ensures forall k :: i <= k < j ==> IsSpace(s[k])
    ensures i > lo ==> !IsSpace(s[i - 1])
  {
    if j > lo && IsSpace(s[j - 1]) then SkipSpacesBack(s, lo, j - 1) else j
  }

  /** `s.lstrip()`: the longest suffix of `s` that does not start with whitespace. */
  function LStrip(s: string): (r: string)
    ensures |r| <= |s| && r == s[|s| - |r|..]
    ensures forall i :: 0 <= i < |s| - |r| ==> IsSpace(s[i])
    ensures r == [] || !IsSpace(r[0])
  {
    s[SkipSpaces(s, 0)..]
  }

  /** `s.rstrip()`: the longest prefix of `s` that does not end with whitespace. */
  function RStrip(s: string): (r: string)
    ensures |r| <= |s| && r == s[..|r|]
    ensures forall i :: |r| <= i < |s| ==> IsSpace(s[i])
    ensures r == [] || !IsSpace(r[|r| - 1])
  {
    s[..SkipSpacesBack(s, 0, |s|)]
  }

  /** `s.strip()`: `s` without its leading and trailing whitespace.  The
      result is the slice of `s` starting at `|s| - |LStrip(s)|`. */
  function Strip(s: string): (r: string)
    ensures |r| <= |s|
    ensures var lo := |s| - |LStrip(s)|;
      && lo + |r| <= |s| && (forall k :: 0 <= k < |r| ==> r[k] == s[lo + k])
      && (forall i :: 0 <= i < lo ==> IsSpace(s[i]))
      && (forall i :: lo + |r| <= i < |s| ==> IsSpace(s[i]))
    ensures r == [] || (!IsSpace(r[0]) && !IsSpace(r[|r| - 1]))
  {
    var lo := SkipSpaces(s, 0);
    s[lo..SkipSpacesBack(s, lo, |s|)]
  }

  /** `Strip(s)` is the slice of `s` that starts where `LStrip(s)` starts. */
  lemma StripIsSlice(s: string)
    ensures var lo := |s| - |LStrip(s)|;
      lo + |Strip(s)| <= |s| && Strip(s) == s[lo..lo + |Strip(s)|]
  {
  }

  /** `strip` is `lstrip` followed by `rstrip`. */
  lemma StripIsBoth(s: string)
    ensures Strip(s) == RStrip(LStrip(s))
  {
    var lo := SkipSpaces(s, 0);
    SkipBackShift(s, lo, |s|);
    assert |s[lo..]| == |s| - lo;
  }

  /** Scanning back over a suffix of `s` stops at the same place as
      scanning back over `s` down to where the suffix starts. */
  lemma {:induction false} SkipBackShift(s: string, lo: nat, j: nat)
    requires lo <= j <= |s|
    ensures SkipSpacesBack(s[lo..], 0, j - lo) + lo == SkipSpacesBack(s, lo, j)
  {
    if j > lo {
      assert s[lo..][j - lo - 1] == s[j - 1];
      SkipBackShift(s, lo, j - 1);
    }
  }

  /** The forward scan stops at the first non-whitespace character. */
  lemma SkipSpacesAt(s: string, i: nat, j: nat)
    requires i <= j < |s| && !IsSpace(s[j])
    requires forall k :: i <= k < j ==> IsSpace(s[k])
    ensures SkipSpaces(s, i) == j
  {
  }

  /** The backward scan stops just after the last non-whitespace character. */
  lemma SkipSpacesBackAt(s: string, lo: nat, j: nat, i: nat)
    requires lo < i <= j <= |s| && !IsSpace(s[i - 1])
    requires forall k :: i <= k < j ==> IsSpace(s[k])
    ensures SkipSpacesBack(s, lo, j) == i
  {
  }

  /** Leading whitespace in front of a non-space character is all that
      `lstrip` removes. */
  lemma LStripIndent(indent: string, rest: string)
    requires forall k :: 0 <= k < |indent| ==> IsSpace(indent[k])
    requires |rest| > 0 && !IsSpace(rest[0])
    ensures LStrip(indent + rest) == rest
  {
    var s := indent + rest;
    SkipSpacesAt(s, 0, |indent|);
    assert s[|indent|..] == rest;
  }

  /** `strip` removes whitespace padding and nothing more from a text whose
      ends are not whitespace. */
  lemma StripPadded(lead: string, x: string, trail: string)
    requires forall k :: 0 <= k < |lead| ==> IsSpace(lead[k])
    requires forall k :: 0 <= k < |trail| ==> IsSpace(trail[k])
    requires |x| > 0 && !IsSpace(x[0]) && !IsSpace(x[|x| - 1])
    ensures Strip(lead + x + trail) == x
  {
    var s := lead + x + trail;
    var lo, hi := |lead|, |lead| + |x|;
    assert s[lo] == x[0] && s[hi - 1] == x[|x| - 1];
    SkipSpacesAt(s, 0, lo);
    SkipSpacesBackAt(s, lo, |s|, hi);
    assert s[lo..hi] == x;
  }

  // ---------------------------------------------------------------------
  // Searching

  /** `pat` occurs in `s` starting at index `i`. */
  predicate OccursAt(s: string, pat: string, i: int) {
    0 <= i && i + |pat| <= |s| && s[i..i + |pat|] == pat
  }

  /** `s.find(pat, from)`: the first index at or after `from` where `pat` occurs. */
  function IndexOfFrom(s: string, pat: string, from: nat): (r: Option<nat>)
    ensures r.Some? ==> from <= r.value && OccursAt(s, pat, r.value)
    ensures r.Some? ==> forall j :: from <= j < r.value ==> !OccursAt(s, pat, j)
    ensures r.None? ==> forall j :: from <= j ==> !OccursAt(s, pat, j)
    decreases |s| - from
  {
    if from + |pat| > |s| then None
    else if OccursAt(s, pat, from) then Some(from)
    else IndexOfFrom(s, pat, from + 1)
  }

  /** `s.find(pat)`, with `None` for Python's `-1`. */
  function IndexOf(s: string, pat: string): (r: Option<nat>)
    ensures r.Some? ==> OccursAt(s, pat, r.value)
    ensures r.Some? ==> forall j :: 0 <= j < r.value ==> !OccursAt(s, pat, j)
    ensures r.None? ==> forall j :: !OccursAt(s, pat, j)
  {
    IndexOfFrom(s, pat, 0)
  }

  /** Python's `pat in s`. */
  function Contains(s: string, pat: string): (b: bool)
    ensures b <==> exists i :: OccursAt(s, pat, i)
  {
    IndexOf(s, pat).Some?
  }

  /** `s.startswith(p)`. */
  predicate StartsWith(s: string, p: string) {
    |p| <= |s| && s[..|p|] == p
  }

  /** `s.find(c)` for one character. */
  function IndexOfChar(s: string, c: char): (r: Option<nat>)
    ensures r.Some? ==> r.value < |s| && s[r.value] == c && c !in s[..r.value]
    ensures r.Some? ==> forall j :: 0 <= j < r.value ==> s[j] != c
    ensures r.None? ==> c !in s
  {
    if |s| == 0 then None
    else if s[0] == c then Some(0)
    else match IndexOfChar(s[1..], c)
      case None => None
      case Some(i) =>
        assert s[..i + 1] == [s[0]] + s[1..][..i];
        Some(i + 1)
  }

  /** `s.rfind(c)`: the last index holding `c`. */
  function LastIndexOfChar(s: string, c: char): (r: Option<nat>)
    ensures r.Some? ==> r.value < |s| && s[r.value] == c
    ensures r.Some? ==> forall j :: r.value < j < |s| ==> s[j] != c
    ensures r.None? ==> c !in s
  {
    if |s| == 0 then None
    else if s[|s| - 1] == c then Some(|s| - 1)
    else LastIndexOfChar(s[..|s| - 1], c)
  }

  /** Stripping only removes whitespace, so a pattern that neither starts nor
      ends with whitespace occurs in `Strip(s)` exactly when it occurs in `s`. */
  lemma ContainsStrip(s: string, pat: string)
    requires pat != [] && !IsSpace(pat[0]) && !IsSpace(pat[|pat| - 1])
    ensures Contains(Strip(s), pat) <==> Contains(s, pat)
  {
    if Contains(Strip(s), pat) {
      ContainsFromStrip(s, pat);
    }
    if Contains(s, pat) {
      ContainsToStrip(s, pat);
    }
  }

  lemma ContainsFromStrip(s: string, pat: string)
    requires Contains(Strip(s), pat)
    ensures Contains(s, pat)
  {
    var r := Strip(s);
    var lo := |s| - |LStrip(s)|;
    var i :| OccursAt(r, pat, i);
    OccursInSlice(s, lo, r, pat, i);
  }

  lemma ContainsToStrip(s: string, pat: string)
    requires pat != [] && !IsSpace(pat[0]) && !IsSpace(pat[|pat| - 1])
    requires Contains(s, pat)
    ensures Contains(Strip(s), pat)
  {
    StripIsSlice(s);
    ContainsToSlice(s, |s| - |LStrip(s)|, Strip(s), pat);
  }

  /** An occurrence of a pattern with non-space ends survives cutting off
      whitespace on both sides. */
  lemma ContainsToSlice(s: string, lo: nat, r: string, pat: string)
    requires pat != [] && !IsSpace(pat[0]) && !IsSpace(pat[|pat| - 1])
    requires lo + |r| <= |s| && r == s[lo..lo + |r|]
    requires forall i :: 0 <= i < lo ==> IsSpace(s[i])
    requires forall i :: lo + |r| <= i < |s| ==> IsSpace(s[i])
    requires Contains(s, pat)
    ensures Contains(r, pat)
  {
    var i :| OccursAt(s, pat, i);
    assert s[i] == s[i..i + |pat|][0] == pat[0];
    assert s[i + |pat| - 1] == s[i..i + |pat|][|pat| - 1] == pat[|pat| - 1];
    SliceOccurs(s, lo, r, pat, i);
  }

  lemma OccursInSlice(s: string, lo: nat, r: string, pat: string, i: int)
    requires lo + |r| <= |s| && r == s[lo..lo + |r|]
    requires OccursAt(r, pat, i)
    ensures OccursAt(s, pat, lo + i)
  {
    forall k | 0 <= k < |pat|
      ensures s[lo + i + k] == pat[k]
    {
      assert pat[k] == r[i..i + |pat|][k] == r[i + k];
    }
    assert s[lo + i..lo + i + |pat|] == pat;
  }

  lemma SliceOccurs(s: string, lo: nat, r: string, pat: string, i: int)
    requires lo + |r| <= |s| && r == s[lo..lo + |r|]
    requires OccursAt(s, pat, i) && lo <= i && i + |pat| <= lo + |r|
    ensures OccursAt(r, pat, i - lo)
  {
    forall k | 0 <= k < |pat|
      ensures r[i - lo + k] == pat[k]
    {
      assert pat[k] == s[i..i + |pat|][k] == s[i + k];
    }
    assert r[i - lo..i - lo + |pat|] == pat;
  }

  // ---------------------------------------------------------------------
  // Splitting and joining

  /** `sep.join(parts)`. */
  function Join(parts: seq<string>, sep: string): string {
    if |parts| == 0 then ""
    else if |parts| == 1 then parts[0]
    else parts[0] + sep + Join(parts[1..], sep)
  }

  /** `s.split(sep)` for a one-character separator: the pieces between
      separators, always at least one, and joining them back gives `s`. */
  function Split(s: string, sep: char): (parts: seq<string>)
    ensures |parts| >= 1
    ensures forall k :: 0 <= k < |parts| ==> sep !in parts[k]
    ensures Join(parts, [sep]) == s
    ensures |parts[0]| <= |s| && parts[0] == s[..|parts[0]|]
    decreases |s|
  {
    match IndexOfChar(s, sep)
    case None => [s]
    case Some(i) =>
      var rest := Split(s[i + 1..], sep);
      assert ([s[..i]] + rest)[1..] == rest;
      [s[..i]] + rest
  }

  /** A character absent from a string is absent from each of its slices. */
  lemma NotInSlice(s: string, c: char, lo: nat, hi: nat)
    requires c !in s && lo <= hi <= |s|
    ensures c !in s[lo..hi]
  {
    forall k | 0 <= k < hi - lo
      ensures s[lo..hi][k] != c
    {
      assert s[lo..hi][k] == s[lo + k];
    }
  }

  /** Splitting the join of separator-free pieces gives the pieces back. */
  lemma {:induction false} SplitJoin(parts: seq<string>, sep: char)
    requires |parts| >= 1
    requires forall k :: 0 <= k < |parts| ==> sep !in parts[k]
    ensures Split(Join(parts, [sep]), sep) == parts
  {
    if |parts| == 1 {
      assert IndexOfChar(parts[0], sep).None?;
    } else {
      SplitJoin(parts[1..], sep);
      SplitFirst(parts[0], sep, Join(parts[1..], [sep]));
      assert parts == [parts[0]] + parts[1..];
    }
  }

  /** A piece without the separator, then the separator: the first piece. */
  lemma SplitFirst(p: string, sep: char, tail: string)
    requires sep !in p
    ensures Split(p + [sep] + tail, sep) == [p] + Split(tail, sep)
  {
    var s := p + [sep] + tail;
    assert s[..|p|] == p;
    IndexOfCharFirst(s, sep, |p|);
    assert s[|p| + 1..] == tail;
  }

  /** The index of a character with no earlier copy is where `find` stops. */
  lemma IndexOfCharFirst(s: string, c: char, i: nat)
    requires i < |s| && s[i] == c && c !in s[..i]
    ensures IndexOfChar(s, c) == Some(i)
  {
    forall j | 0 <= j < i
      ensures s[j] != c
    {
      assert s[..i][j] == s[j];
    }
  }

  // ---------------------------------------------------------------------
  // Decimal numbers

  /** The value of a string of decimal digits, leading zeros allowed: Python's
      `int(s)` on such a string. */
  function DigitsValue(s: string): nat
    requires AllDigits(s)
  {
    if |s| == 0 then 0 else DigitsValue(s[..|s| - 1]) * 10 + DigitValue(s[|s| - 1])
  }

  /** Python's `str(n)` for a natural number: digits without leading zeros. */
  function NatToString(n: nat): (s: string)
    ensures |s| >= 1 && AllDigits(s)
    ensures DigitsValue(s) == n
    ensures n > 0 ==> s[0] != '0'
  {
    if n < 10 then [DigitChar(n)]
    else
      var s := NatToString(n / 10) + [DigitChar(n % 10)];
      assert s[..|s| - 1] == NatToString(n / 10);
      s
  }

  /** Python's `str(i)` for an integer. */
  function IntToString(i: int): (s: string)
    ensures |s| >= 1
    ensures i >= 0 ==> s == NatToString(i)
    ensures i < 0 ==> s == "-" + NatToString(-i)
  {
    if i >= 0 then NatToString(i) else "-" + NatToString(-i)
  }

  function Pow10(k: nat): (p: nat)
    ensures p >= 1
  {
    if k == 0 then 1 else 10 * Pow10(k - 1)
  }

  /** `n` written with exactly `width` digits, zero-padded on the left
      (Python's `f"{n:0{width}d}"` for an `n` that fits). */
  function FixedDigits(n: nat, width: nat): (s: string)
    requires n < Pow10(width)
    ensures |s| == width && AllDigits(s)
    ensures DigitsValue(s) == n
  {
    if width == 0 then ""
    else
      var s := FixedDigits(n / 10, width - 1) + [DigitChar(n % 10)];
      assert s[..|s| - 1] == FixedDigits(n / 10, width - 1);
      s
  }
}
