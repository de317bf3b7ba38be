/** Budget text parsing (`Budget` and `parse_budget_text` in
    src/processors/job_extractor.py): a negotiability keyword, a
    compensation-type keyword, and the amounts found by the regular
    expression `(\d{1,3}(?:,\d{3})*)`, reduced to a minimum and a maximum. */
module Budgets {
  import opened Wrappers
  import opened Text

  const FixedPrice: string := "固定報酬制"
  const Hourly: string := "時間単価制"
  const OtherType: string := "その他"
  /** The type of the default budget of a posting without a budget element. */
  const UnknownType: string := "不明"
  const Negotiable: string := "相談"
  const NegotiableFormal: string := "応相談"

  /** A posting's budget.  `kind` is the source's `type` field; amounts are
      yen and, being extracted digit strings, never negative. */
  datatype Budget = Budget(kind: string, minAmount: Option<nat>, maxAmount: Option<nat>, isNegotiable: bool) {

    /** Both amounts are present or both absent, and then ordered. */
    predicate Valid() {
      && (minAmount.Some? <==> maxAmount.Some?)
      && (minAmount.Some? ==> minAmount.value <= maxAmount.value)
    }
  }

  /** The budget a posting gets when no budget element is found. */
  const DefaultBudget: Budget := Budget(UnknownType, None, None, true)

  // ---------------------------------------------------------------------
  // The language of the amount pattern, stated declaratively

  /** Zero or more groups `,ddd`: the `(?:,\d{3})*` part of the pattern. */
  predicate IsGroupTail(t: string)
    decreases |t|
  {
    |t| == 0 || (|t| >= 4 && t[0] == ',' && AllDigits(t[1..4]) && IsGroupTail(t[4..]))
  }

  /** A string the whole pattern `\d{1,3}(?:,\d{3})*` matches. */
  predicate IsGroupedNumber(t: string) {
    exists k :: 1 <= k <= 3 && k <= |t| && AllDigits(t[..k]) && IsGroupTail(t[k..])
  }

  // ---------------------------------------------------------------------
  // The scanner `re.findall` runs

  /** One group `,ddd` starts at index `j`. */
  predicate GroupAt(s: string, j: nat) {
    j + 4 <= |s| && s[j] == ',' && IsDigit(s[j + 1]) && IsDigit(s[j + 2]) && IsDigit(s[j + 3])
  }

  /** How many digits the greedy `\d{1,3}` takes at `i`. */
  function LeadLen(s: string, i: nat): (n: nat)
    requires i < |s| && IsDigit(s[i])
    ensures 1 <= n <= 3 && i + n <= |s|
    ensures forall k :: i <= k < i + n ==> IsDigit(s[k])
    ensures n < 3 ==> i + n == |s| || !IsDigit(s[i + n])
  {
    if i + 1 < |s| && IsDigit(s[i + 1]) then
      (if i + 2 < |s| && IsDigit(s[i + 2]) then 3 else 2)
    else 1
  }

  /** How many characters the greedy `(?:,\d{3})*` takes at `j`: groups
      as long as there are, and no group right after them. */
  function GroupsLen(s: string, j: nat): (n: nat)
    requires j <= |s|
    ensures j + n <= |s| && !GroupAt(s, j + n)
    ensures n % 4 == 0
    decreases |s| - j
  {
    if GroupAt(s, j) then 4 + GroupsLen(s, j + 4) else 0
  }

  /** What the group loop takes is a run of whole groups. */
  lemma {:induction false} GroupsLenTail(s: string, j: nat)
    requires j <= |s|
    ensures IsGroupTail(s[j..j + GroupsLen(s, j)])
    decreases |s| - j
  {
    if GroupAt(s, j) {
      var n := GroupsLen(s, j);
      GroupsLenTail(s, j + 4);
      assert s[j..j + n][1..4] == s[j + 1..j + 4];
      assert s[j..j + n][4..] == s[j + 4..j + n];
    }
  }

  /** Length of the match of the amount pattern that starts at digit `i`.
      Nothing follows the pattern, so the first success of the backtracking
      matcher is the greedy one. */
  function MatchLen(s: string, i: nat): (n: nat)
    requires i < |s| && IsDigit(s[i])
    ensures 1 <= n && i + n <= |s|
  {
    var lead := LeadLen(s, i);
    lead + GroupsLen(s, i + lead)
  }

  /** The text the greedy match takes is one the whole pattern matches. */
  lemma MatchIsGrouped(s: string, i: nat)
    requires i < |s| && IsDigit(s[i])
    ensures IsGroupedNumber(s[i..i + MatchLen(s, i)])
  {
    var lead := LeadLen(s, i);
    var n := MatchLen(s, i);
    GroupsLenTail(s, i + lead);
    var t := s[i..i + n];
    assert t[..lead] == s[i..i + lead];
    assert t[lead..] == s[i + lead..i + n];
    assert AllDigits(t[..lead]);
  }

  /** `re.findall(r'(\d{1,3}(?:,\d{3})*)', s[i..])`: non-overlapping matches,
      left to right. */
  function AmountTokens(s: string, i: nat): (ts: seq<string>)
    requires i <= |s|
    decreases |s| - i
  {
    if i == |s| then []
    else if IsDigit(s[i]) then
      var n := MatchLen(s, i);
      [s[i..i + n]] + AmountTokens(s, i + n)
    else AmountTokens(s, i + 1)
  }

  predicate NoDigits(t: string) {
    forall k :: 0 <= k < |t| ==> !IsDigit(t[k])
  }

  /** A character that ends a match and cannot start or continue one. */
  predicate IsBreak(c: char) {
    !IsDigit(c) && c != ','
  }

  // ---------------------------------------------------------------------
  // Where the matches are

  /** Every token is a whole match of the pattern. */
  lemma {:induction false} TokensAreGrouped(s: string, i: nat)
    requires i <= |s|
    ensures forall k :: 0 <= k < |AmountTokens(s, i)| ==> IsGroupedNumber(AmountTokens(s, i)[k])
    decreases |s| - i
  {
    if i < |s| {
      if IsDigit(s[i]) {
        var n := MatchLen(s, i);
        TokensAreGrouped(s, i + n);
        TokensAtDigit(s, i);
        MatchIsGrouped(s, i);
      } else {
        TokensAreGrouped(s, i + 1);
      }
    }
  }

  /** The scan finds something exactly when a digit is left. */
  lemma {:induction false} NoTokensIffNoDigits(s: string, i: nat)
    requires i <= |s|
    ensures AmountTokens(s, i) == [] <==> forall k :: i <= k < |s| ==> !IsDigit(s[k])
    decreases |s| - i
  {
    if i < |s| && !IsDigit(s[i]) {
      NoTokensIffNoDigits(s, i + 1);
    }
  }

  /** One step of the scan at a digit: a match, then the scan after it. */
  lemma TokensAtDigit(s: string, i: nat)
    requires i < |s| && IsDigit(s[i])
    ensures AmountTokens(s, i) == [s[i..i + MatchLen(s, i)]] + AmountTokens(s, i + MatchLen(s, i))
  {
  }

  /** One step of the scan elsewhere: the character is skipped. */
  lemma TokensAtOther(s: string, i: nat)
    requires i < |s| && !IsDigit(s[i])
    ensures AmountTokens(s, i) == AmountTokens(s, i + 1)
  {
  }

  /** The scan depends only on the text it has not passed: after a
      prefix `p`, it proceeds as on the rest alone. */
  lemma {:induction false} GroupsLenShift(p: string, b: string, j: nat)
    requires j <= |b|
    ensures GroupsLen(p + b, |p| + j) == GroupsLen(b, j)
    decreases |b| - j
  {
    if GroupAt(b, j) {
      assert GroupAt(p + b, |p| + j);
      GroupsLenShift(p, b, j + 4);
    } else {
      assert !GroupAt(p + b, |p| + j);
    }
  }

  lemma MatchLenShift(p: string, b: string, i: nat)
    requires i < |b| && IsDigit(b[i])
    ensures IsDigit((p + b)[|p| + i]) && MatchLen(p + b, |p| + i) == MatchLen(b, i)
  {
    var lead := LeadLen(b, i);
    assert LeadLen(p + b, |p| + i) == lead;
    GroupsLenShift(p, b, i + lead);
  }

  lemma SliceShift(p: string, b: string, i: nat, j: nat)
    requires i <= j <= |b|
    ensures (p + b)[|p| + i..|p| + j] == b[i..j]
  {
  }

  lemma {:induction false} TokensShift(p: string, b: string, i: nat)
    requires i <= |b|
    ensures AmountTokens(p + b, |p| + i) == AmountTokens(b, i)
    decreases |b| - i
  {
    var s := p + b;
    if i < |b| {
      assert s[|p| + i] == b[i];
      if IsDigit(b[i]) {
        TokensShift(p, b, i + MatchLen(b, i));
        ShiftAtDigit(p, b, i);
      } else {
        TokensShift(p, b, i + 1);
        TokensAtOther(s, |p| + i);
        TokensAtOther(b, i);
      }
    }
  }

  /** The match at a digit after the prefix is the same in both texts. */
  lemma ShiftAtDigit(p: string, b: string, i: nat)
    requires i < |b| && IsDigit(b[i])
    requires var n := MatchLen(b, i); AmountTokens(p + b, |p| + i + n) == AmountTokens(b, i + n)
    ensures AmountTokens(p + b, |p| + i) == AmountTokens(b, i)
  {
    MatchLenShift(p, b, i);
    var n := MatchLen(b, i);
    SliceShift(p, b, i, i + n);
    var token, rest := b[i..i + n], AmountTokens(b, i + n);
    TokensAtDigit(b, i);
    assert AmountTokens(b, i) == [token] + rest;
    TokensAtDigit(p + b, |p| + i);
  }

  /** A break character ends the amount groups: they stop where they would in `a` alone. */
  lemma {:induction false} GroupsLenCut(a: string, c: char, b: string, j: nat)
    requires IsBreak(c) && j <= |a|
    ensures GroupsLen(a + [c] + b, j) == GroupsLen(a, j)
    decreases |a| - j
  {
    var s := a + [c] + b;
    assert s[|a|] == c;
    if GroupAt(a, j) {
      assert GroupAt(s, j);
      GroupsLenCut(a, c, b, j + 4);
    } else {
      assert !GroupAt(s, j);
    }
  }

  lemma MatchLenCut(a: string, c: char, b: string, i: nat)
    requires IsBreak(c) && i < |a| && IsDigit(a[i])
    ensures var s := a + [c] + b; IsDigit(s[i]) && MatchLen(s, i) == MatchLen(a, i)
  {
    var s := a + [c] + b;
    assert s[|a|] == c;
    var lead := LeadLen(a, i);
    assert LeadLen(s, i) == lead;
    GroupsLenCut(a, c, b, i + lead);
  }

  lemma SliceCut(a: string, c: char, b: string, i: nat, j: nat)
    requires i <= j <= |a|
    ensures (a + [c] + b)[i..j] == a[i..j]
  {
  }

  lemma {:induction false} TokensCutFrom(a: string, c: char, b: string, i: nat)
    requires IsBreak(c) && i <= |a|
    ensures AmountTokens(a + [c] + b, i) == AmountTokens(a, i) + AmountTokens(b, 0)
    decreases |a| - i
  {
    var s := a + [c] + b;
    if i == |a| {
      assert s[|a|] == c;
      TokensShift(a + [c], b, 0);
      TokensAtOther(s, i);
    } else {
      assert s[i] == a[i];
      if IsDigit(a[i]) {
        TokensCutFrom(a, c, b, i + MatchLen(a, i));
        CutAtDigit(a, c, b, i);
      } else {
        TokensCutFrom(a, c, b, i + 1);
        TokensAtOther(s, i);
        TokensAtOther(a, i);
      }
    }
  }

  /** The match at a digit before the break is the same in both texts. */
  lemma CutAtDigit(a: string, c: char, b: string, i: nat)
    requires IsBreak(c) && i < |a| && IsDigit(a[i])
    requires var n := MatchLen(a, i);
      AmountTokens(a + [c] + b, i + n) == AmountTokens(a, i + n) + AmountTokens(b, 0)
    ensures AmountTokens(a + [c] + b, i) == AmountTokens(a, i) + AmountTokens(b, 0)
  {
    MatchLenCut(a, c, b, i);
    var n := MatchLen(a, i);
    SliceCut(a, c, b, i, i + n);
    var token, rest, after := a[i..i + n], AmountTokens(a, i + n), AmountTokens(b, 0);
    TokensAtDigit(a, i);
    assert AmountTokens(a, i) == [token] + rest;
    TokensAtDigit(a + [c] + b, i);
    assert AmountTokens(a + [c] + b, i) == [token] + (rest + after);
    assert [token] + (rest + after) == ([token] + rest) + after;
  }

  /** A character that is neither a digit nor a comma splits the text into
      two independent scans: the amounts of the whole are those before it
      followed by those after it. */
  lemma TokensCut(a: string, c: char, b: string)
    requires IsBreak(c)
    ensures AmountTokens(a + [c] + b, 0) == AmountTokens(a, 0) + AmountTokens(b, 0)
  {
    TokensCutFrom(a, c, b, 0);
  }

  /** Text without digits contributes no amounts. */
  lemma {:induction false} TokensSkipFrom(p: string, b: string, i: nat)
    requires NoDigits(p) && i <= |p|
    ensures AmountTokens(p + b, i) == AmountTokens(b, 0)
    decreases |p| - i
  {
    var s := p + b;
    if i == |p| {
      TokensShift(p, b, 0);
    } else {
      assert s[i] == p[i];
      TokensSkipFrom(p, b, i + 1);
    }
  }

  // ---------------------------------------------------------------------
  // Token values

  /** `t.replace(',', '')`. */
  function RemoveCommas(t: string): (r: string)
    ensures ',' !in r
    ensures |r| <= |t|
  {
    if |t| == 0 then ""
    else if t[0] == ',' then RemoveCommas(t[1..])
    else [t[0]] + RemoveCommas(t[1..])
  }

  predicate DigitsAndCommas(t: string) {
    forall i :: 0 <= i < |t| ==> IsDigit(t[i]) || t[i] == ','
  }

  lemma {:induction false} RemoveCommasDigits(t: string)
    requires DigitsAndCommas(t)
    ensures AllDigits(RemoveCommas(t))
    decreases |t|
  {
    if |t| > 0 {
      RemoveCommasDigits(t[1..]);
    }
  }

  lemma {:induction false} GroupTailChars(t: string)
    requires IsGroupTail(t)
    ensures DigitsAndCommas(t)
    decreases |t|
  {
    if |t| > 0 {
      GroupTailChars(t[4..]);
      assert forall i :: 1 <= i < 4 ==> t[i] == t[1..4][i - 1];
      assert forall i :: 4 <= i < |t| ==> t[i] == t[4..][i - 4];
    }
  }

  lemma GroupedNumberChars(t: string)
    requires IsGroupedNumber(t)
    ensures DigitsAndCommas(t)
  {
    var k :| 1 <= k <= 3 && k <= |t| && AllDigits(t[..k]) && IsGroupTail(t[k..]);
    GroupTailChars(t[k..]);
    assert forall i :: 0 <= i < k ==> t[i] == t[..k][i];
    assert forall i :: k <= i < |t| ==> t[i] == t[k..][i - k];
  }

  /** `int(t.replace(',', ''))` for a matched token. */
  function TokenValue(t: string): nat
    requires IsGroupedNumber(t)
  {
    GroupedNumberChars(t);
    RemoveCommasDigits(t);
    DigitsValue(RemoveCommas(t))
  }

  /** The amounts `parse_budget_text` extracts from `s`, in text order. */
  function Amounts(s: string): (amounts: seq<nat>)
    ensures |amounts| == |AmountTokens(s, 0)|
  {
    var ts := AmountTokens(s, 0);
    TokensAreGrouped(s, 0);
    seq(|ts|, k requires 0 <= k < |ts| => TokenValue(ts[k]))
  }

  // ---------------------------------------------------------------------
  // Minimum and maximum

  function SeqMin(xs: seq<nat>): (m: nat)
    requires |xs| > 0
    ensures m in xs
    ensures forall x :: x in xs ==> m <= x
  {
    if |xs| == 1 then xs[0]
    else
      var rest := SeqMin(xs[1..]);
      assert forall x :: x in xs ==> x == xs[0] || x in xs[1..];
      if xs[0] <= rest then xs[0] else rest
  }

  function SeqMax(xs: seq<nat>): (m: nat)
    requires |xs| > 0
    ensures m in xs
    ensures forall x :: x in xs ==> x <= m
  {
    if |xs| == 1 then xs[0]
    else
      var rest := SeqMax(xs[1..]);
      assert forall x :: x in xs ==> x == xs[0] || x in xs[1..];
      if xs[0] >= rest then xs[0] else rest
  }

  // ---------------------------------------------------------------------
  // parse_budget_text

  /** The compensation type named in `t`; the fixed-price keyword wins. */
  function BudgetKind(t: string): (kind: string)
    ensures kind == FixedPrice <==> Contains(t, FixedPrice)
    ensures kind == Hourly <==> !Contains(t, FixedPrice) && Contains(t, Hourly)
    ensures kind == OtherType <==> !Contains(t, FixedPrice) && !Contains(t, Hourly)
  {
    if Contains(t, FixedPrice) then FixedPrice
    else if Contains(t, Hourly) then Hourly
    else OtherType
  }

  /** The longer keyword contains the shorter one. */
  lemma FormalKeywordContainsShort(t: string)
    ensures Contains(t, NegotiableFormal) ==> Contains(t, Negotiable)
  {
    if Contains(t, NegotiableFormal) {
      var i :| OccursAt(t, NegotiableFormal, i);
      assert t[i + 1..i + 3] == t[i..i + 3][1..] == NegotiableFormal[1..] == Negotiable;
      assert OccursAt(t, Negotiable, i + 1);
    }
  }

  /** `parse_budget_text(text)`. */
  function ParseBudgetText(text: string): (b: Budget)
    ensures b.Valid()
    ensures b.isNegotiable <==> Contains(text, Negotiable)
    ensures b.kind == FixedPrice <==> Contains(text, FixedPrice)
    ensures b.kind == Hourly <==> !Contains(text, FixedPrice) && Contains(text, Hourly)
    ensures b.kind == OtherType <==> !Contains(text, FixedPrice) && !Contains(text, Hourly)
    ensures var amounts := Amounts(Strip(text));
      && (b.minAmount.None? <==> |amounts| == 0)
      && (b.minAmount.Some? ==> b.minAmount.value in amounts && b.maxAmount.value in amounts)
      && (b.minAmount.Some? ==> forall a :: a in amounts ==> b.minAmount.value <= a <= b.maxAmount.value)
  {
    var t := Strip(text);
    KeywordsSurviveStrip(text);
    var negotiable := Contains(t, Negotiable) || Contains(t, NegotiableFormal);
    var kind := BudgetKind(t);
    var (lo, hi) := AmountRange(Amounts(t));
    Budget(kind, lo, hi, negotiable)
  }

  /** The keywords are found in the stripped text exactly when they are in
      the text, and the formal spelling implies the short one. */
  lemma KeywordsSurviveStrip(text: string)
    ensures Contains(Strip(text), NegotiableFormal) ==> Contains(Strip(text), Negotiable)
    ensures Contains(Strip(text), Negotiable) <==> Contains(text, Negotiable)
    ensures Contains(Strip(text), FixedPrice) <==> Contains(text, FixedPrice)
    ensures Contains(Strip(text), Hourly) <==> Contains(text, Hourly)
  {
    FormalKeywordContainsShort(Strip(text));
    ContainsStrip(text, Negotiable);
    ContainsStrip(text, FixedPrice);
    ContainsStrip(text, Hourly);
  }

  /** The minimum and maximum of the amounts found: both absent without
      amounts, the single amount twice for one, else `min` and `max`. */
  function AmountRange(amounts: seq<nat>): (r: (Option<nat>, Option<nat>))
    ensures r.0.None? <==> |amounts| == 0
    ensures r.1.None? <==> |amounts| == 0
    ensures r.0.Some? ==> r.0.value in amounts && r.1.value in amounts
    ensures r.0.Some? ==> forall a :: a in amounts ==> r.0.value <= a <= r.1.value
  {
    if |amounts| == 0 then (None, None)
    else if |amounts| == 1 then (Some(amounts[0]), Some(amounts[0]))
    else (Some(SeqMin(amounts)), Some(SeqMax(amounts)))
  }

  // ---------------------------------------------------------------------
  // Round trip: amounts written with thousands separators are read back

  /** The leading group of `n` written with thousands separators: below 1000. */
  function LeadGroup(n: nat): (l: nat)
    ensures l < 1000
  {
    if n < 1000 then n else LeadGroup(n / 1000)
  }

  /** The `,ddd` groups of `n` written with thousands separators. */
  function TrailingGroups(n: nat): string {
    if n < 1000 then "" else TrailingGroups(n / 1000) + "," + FixedDigits(n % 1000, 3)
  }

  /** `n` written the way postings show amounts, e.g. 50000 as "50,000". */
  function FormatGrouped(n: nat): string {
    NatToString(LeadGroup(n)) + TrailingGroups(n)
  }

  lemma {:induction false} NatToStringLength(n: nat, k: nat)
    requires 1 <= k && n < Pow10(k)
    ensures |NatToString(n)| <= k
    decreases k
  {
    if n >= 10 {
      NatToStringLength(n / 10, k - 1);
    }
  }

  lemma {:induction false} GroupTailAppend(a: string, b: string)
    requires IsGroupTail(a) && IsGroupTail(b)
    ensures IsGroupTail(a + b)
    decreases |a|
  {
    if |a| > 0 {
      GroupTailAppend(a[4..], b);
      assert (a + b)[4..] == a[4..] + b;
      assert (a + b)[1..4] == a[1..4];
      assert (a + b)[0] == ',';
    } else {
      assert a + b == b;
    }
  }

  lemma {:induction false} TrailingGroupsTail(n: nat)
    ensures IsGroupTail(TrailingGroups(n))
    decreases n
  {
    if n >= 1000 {
      TrailingGroupsTail(n / 1000);
      var g := "," + FixedDigits(n % 1000, 3);
      assert g[1..4] == FixedDigits(n % 1000, 3);
      assert g[4..] == "";
      assert IsGroupTail(g[4..]);
      assert IsGroupTail(g);
      GroupTailAppend(TrailingGroups(n / 1000), g);
      assert TrailingGroups(n) == TrailingGroups(n / 1000) + g;
    }
  }

  /** On a group tail running to the end, the greedy group loop takes all of it. */
  lemma {:induction false} GroupsLenWhole(s: string, j: nat)
    requires j <= |s| && IsGroupTail(s[j..])
    ensures GroupsLen(s, j) == |s| - j
    decreases |s| - j
  {
    if j < |s| {
      var t := s[j..];
      assert t[1..4] == s[j + 1..j + 4];
      assert AllDigits(t[1..4]) ==> IsDigit(t[1..4][0]) && IsDigit(t[1..4][1]) && IsDigit(t[1..4][2]);
      assert GroupAt(s, j);
      assert t[4..] == s[j + 4..];
      GroupsLenWhole(s, j + 4);
    }
  }

  lemma {:induction false} RemoveCommasAppend(a: string, b: string)
    ensures RemoveCommas(a + b) == RemoveCommas(a) + RemoveCommas(b)
    decreases |a|
  {
    if |a| > 0 {
      assert (a + b)[1..] == a[1..] + b;
      assert (a + b)[0] == a[0];
      RemoveCommasAppend(a[1..], b);
    } else {
      assert a + b == b;
    }
  }

  lemma {:induction false} RemoveCommasNone(a: string)
    requires ',' !in a
    ensures RemoveCommas(a) == a
    decreases |a|
  {
    if |a| > 0 {
      RemoveCommasNone(a[1..]);
    }
  }

  lemma {:induction false} DigitsValueAppend(a: string, b: string)
    requires AllDigits(a) && AllDigits(b)
    ensures AllDigits(a + b)
    ensures DigitsValue(a + b) == DigitsValue(a) * Pow10(|b|) + DigitsValue(b)
    decreases |b|
  {
    if |b| > 0 {
      var b' := b[..|b| - 1];
      var d := DigitValue(b[|b| - 1]);
      assert (a + b)[..|a + b| - 1] == a + b';
      assert (a + b)[|a + b| - 1] == b[|b| - 1];
      DigitsValueAppend(a, b');
      ShiftDigit(DigitsValue(a), Pow10(|b'|), DigitsValue(b'), d);
    } else {
      assert a + b == a;
    }
  }

  lemma ShiftDigit(x: nat, p: nat, y: nat, d: nat)
    ensures (x * p + y) * 10 + d == x * (10 * p) + (y * 10 + d)
  {
  }

  /** The digits left once the commas of `FormatGrouped(n)` are removed. */
  lemma {:induction false} GroupedDigitsValue(n: nat)
    ensures AllDigits(RemoveCommas(FormatGrouped(n)))
    ensures DigitsValue(RemoveCommas(FormatGrouped(n))) == n
    decreases n
  {
    if n < 1000 {
      RemoveCommasNone(NatToString(LeadGroup(n)));
      assert FormatGrouped(n) == NatToString(LeadGroup(n));
    } else {
      GroupedDigitsValue(n / 1000);
      GroupedDigitsStep(n);
      DigitsValueAppend(RemoveCommas(FormatGrouped(n / 1000)), FixedDigits(n % 1000, 3));
      ThousandsSplit(n);
    }
  }

  lemma ThousandsSplit(n: nat)
    ensures (n / 1000) * Pow10(3) + n % 1000 == n
  {
    assert Pow10(3) == 1000;
  }

  /** Past the first group, removing the commas appends the next group's digits. */
  lemma GroupedDigitsStep(n: nat)
    requires n >= 1000
    ensures RemoveCommas(FormatGrouped(n))
      == RemoveCommas(FormatGrouped(n / 1000)) + FixedDigits(n % 1000, 3)
  {
    var d := FixedDigits(n % 1000, 3);
    var lead := NatToString(LeadGroup(n / 1000));
    var groups := TrailingGroups(n / 1000);
    assert FormatGrouped(n) == lead + (groups + "," + d);
    Reassociate(lead, groups, ",", d);
    RemoveCommasAppend(lead + groups, "," + d);
    assert ("," + d)[1..] == d;
    RemoveCommasNone(d);
  }

  lemma Reassociate(a: string, b: string, c: string, d: string)
    ensures a + (b + c + d) == (a + b) + (c + d)
  {
  }

  /** An amount written with thousands separators is found as exactly one
      amount, with its value. */
  lemma AmountsOfFormatGrouped(n: nat)
    ensures Amounts(FormatGrouped(n)) == [n]
  {
    GroupedIsOneToken(n);
    GroupedDigitsValue(n);
  }

  /** Two amounts written with thousands separators, such as a range
      `10,000円〜50,000円`, are found as the two amounts in order, whatever
      digit-free text separates and follows them, provided each starts
      with a character that cannot continue an amount. */
  lemma TwoAmounts(x: nat, y: nat, mid: string, end: string)
    requires |mid| > 0 && IsBreak(mid[0]) && NoDigits(mid)
    requires (|end| > 0 ==> IsBreak(end[0])) && NoDigits(end)
    ensures Amounts(FormatGrouped(x) + mid + FormatGrouped(y) + end) == [x, y]
  {
    var t := FormatGrouped(x) + mid + FormatGrouped(y) + end;
    TwoTokens(x, y, mid, end);
    FormatGroupedValue(x);
    FormatGroupedValue(y);
    AmountsOfTokens(t, [FormatGrouped(x), FormatGrouped(y)]);
  }

  /** The range of a typical posting, `10,000円〜50,000円`. */
  lemma RangeExample()
    ensures Amounts("10,000" + "円〜" + "50,000" + "円") == [10000, 50000]
  {
    TenThousands();
    TwoAmounts(10000, 50000, "円〜", "円");
  }

  lemma TenThousands()
    ensures FormatGrouped(10000) == "10,000" && FormatGrouped(50000) == "50,000"
  {
    ThousandsOf(10, '1');
    ThousandsOf(50, '5');
  }

  /** `d0` thousands, for a two-digit `n` ending in zero starting with `d`. */
  lemma ThousandsOf(n: nat, d: char)
    requires 10 <= n < 100 && n % 10 == 0 && IsDigit(d) && DigitValue(d) == n / 10
    ensures FormatGrouped(n * 1000) == [d, '0', ',', '0', '0', '0']
  {
    assert LeadGroup(n * 1000) == n;
    assert NatToString(n) == [d, '0'];
    var zeros := FixedDigits(0, 3);
    assert zeros == ['0', '0', '0'];
    assert TrailingGroups(n * 1000) == "" + "," + zeros;
  }

  lemma TwoTokens(x: nat, y: nat, mid: string, end: string)
    requires |mid| > 0 && IsBreak(mid[0]) && NoDigits(mid)
    requires (|end| > 0 ==> IsBreak(end[0])) && NoDigits(end)
    ensures AmountTokens(FormatGrouped(x) + mid + FormatGrouped(y) + end, 0) == [FormatGrouped(x), FormatGrouped(y)]
  {
    var fx, fy := FormatGrouped(x), FormatGrouped(y);
    var after := mid[1..] + (fy + end);
    HeadOfMiddle(fx, mid, fy, end);
    TokensCut(fx, mid[0], after);
    TokensSkipFrom(mid[1..], fy + end, 0);
    GroupedIsOneToken(x);
    OneTokenThenText(y, end);
    assert AmountTokens(after, 0) == [fy];
  }

  lemma HeadOfMiddle(x: string, m: string, y: string, e: string)
    requires |m| > 0
    ensures x + m + y + e == x + [m[0]] + (m[1..] + (y + e))
  {
    assert m == [m[0]] + m[1..];
  }

  /** An amount followed by digit-free text starting with a break is one token. */
  lemma OneTokenThenText(y: nat, end: string)
    requires (|end| > 0 ==> IsBreak(end[0])) && NoDigits(end)
    ensures AmountTokens(FormatGrouped(y) + end, 0) == [FormatGrouped(y)]
  {
    var fy := FormatGrouped(y);
    GroupedIsOneToken(y);
    if |end| > 0 {
      assert fy + end == fy + [end[0]] + end[1..];
      TokensCut(fy, end[0], end[1..]);
      NoTokensIffNoDigits(end[1..], 0);
    } else {
      assert fy + end == fy;
    }
  }

  /** A grouped amount is one token whose value is the amount. */
  lemma FormatGroupedValue(n: nat)
    ensures IsGroupedNumber(FormatGrouped(n)) && TokenValue(FormatGrouped(n)) == n
  {
    var f := FormatGrouped(n);
    GroupedIsOneToken(n);
    TokensAreGrouped(f, 0);
    assert AmountTokens(f, 0)[0] == f;
    GroupedDigitsValue(n);
  }

  /** The amounts are the values of the tokens, in order. */
  lemma AmountsOfTokens(t: string, ts: seq<string>)
    requires AmountTokens(t, 0) == ts
    ensures forall k :: 0 <= k < |ts| ==> IsGroupedNumber(ts[k])
    ensures |Amounts(t)| == |ts| && forall k :: 0 <= k < |ts| ==> Amounts(t)[k] == TokenValue(ts[k])
  {
    TokensAreGrouped(t, 0);
  }

  /** The pattern matches the whole of `FormatGrouped(n)` at once. */
  lemma GroupedIsOneToken(n: nat)
    ensures AmountTokens(FormatGrouped(n), 0) == [FormatGrouped(n)]
  {
    var s := FormatGrouped(n);
    GroupedMatchesWhole(n);
    assert s[0..|s|] == s;
  }

  lemma GroupedMatchesWhole(n: nat)
    ensures |FormatGrouped(n)| > 0 && IsDigit(FormatGrouped(n)[0])
    ensures MatchLen(FormatGrouped(n), 0) == |FormatGrouped(n)|
  {
    var s := FormatGrouped(n);
    var lead := NatToString(LeadGroup(n));
    var tail := TrailingGroups(n);
    NatToStringLength(LeadGroup(n), 3);
    TrailingGroupsTail(n);
    assert s[..|lead|] == lead && s[|lead|..] == tail;
    assert IsDigit(s[0]) by { assert s[0] == lead[0]; }
    assert LeadLen(s, 0) == |lead| by {
      if |lead| < 3 && |lead| < |s| {
        assert s[|lead|] == tail[0] == ',';
      }
      assert forall i :: 0 <= i < |lead| ==> s[i] == lead[i];
    }
    GroupsLenWhole(s, |lead|);
  }

  /** A run of more than three digits without separators is not one amount:
      the pattern takes three digits and starts a new match after them. */
  lemma UngroupedRunSplits()
    ensures AmountTokens("1234", 0) == ["123", "4"]
  {
    var s := "1234";
    assert LeadLen(s, 0) == 3;
    assert GroupsLen(s, 3) == 0;
    assert LeadLen(s, 3) == 1;
    assert GroupsLen(s, 4) == 0;
    assert AmountTokens(s, 4) == [];
    assert MatchLen(s, 3) == 1;
    assert s[3..4] == "4";
    assert AmountTokens(s, 3) == ["4"];
    assert s[0..3] == "123";
  }
}
