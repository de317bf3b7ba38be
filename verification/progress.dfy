/** The progress bookkeeping of `run_main_py` in simple_server.py: every
    output line of the scraper is logged stripped, and a line carrying the
    marker `進捗:` followed by a number and `%` sets the progress.  The
    lines it looks for are those of a progress bar such as the one of
    job_matcher.py:121 (`tqdm` with the description "案件評価の進捗"). */
module Progress {
  import opened Wrappers
  import opened Text

  const Marker: string := "進捗:"
  const FailureMessage: string := "実行中にエラーが発生しました"
  /** The progress reported once the scraper has exited normally. */
  const Done: int := 100

  // ---------------------------------------------------------------------
  // Python's int() on a string

  /** Digits with single underscores between them: the body `int()`
      accepts after an optional sign. */
  predicate DigitGroups(b: string) {
    && |b| > 0 && IsDigit(b[0]) && IsDigit(b[|b| - 1])
    && (forall k :: 0 <= k < |b| ==> IsDigit(b[k]) || b[k] == '_')
    && (forall k :: 0 <= k < |b| - 1 && b[k] == '_' ==> IsDigit(b[k + 1]))
  }

  /** The characters of `b` other than underscores. */
  function DropUnderscores(b: string): (d: string)
    ensures (forall k :: 0 <= k < |b| ==> IsDigit(b[k]) || b[k] == '_') ==> AllDigits(d)
  {
    if |b| == 0 then ""
    else (if b[0] == '_' then "" else [b[0]]) + DropUnderscores(b[1..])
  }

  lemma {:induction false} DropUnderscoresOfDigits(b: string)
    requires AllDigits(b)
    ensures DropUnderscores(b) == b
  {
    if |b| > 0 {
      assert AllDigits(b[1..]) by {
        assert forall k :: 0 <= k < |b| - 1 ==> b[1..][k] == b[k + 1];
      }
      DropUnderscoresOfDigits(b[1..]);
      assert b == [b[0]] + b[1..];
    }
  }

  /** The sign and the body of a stripped literal. */
  function SplitSign(t: string): (r: (bool, string))
    ensures |r.1| <= |t| && r.1 == t[|t| - |r.1|..]
    ensures |t| - |r.1| <= 1
  {
    if |t| > 0 && (t[0] == '-' || t[0] == '+') then (t[0] == '-', t[1..]) else (false, t)
  }

  /** A stripped literal as `int()` reads it: an optional sign, then
      digits with single underscores between them. */
  function IntLiteral(t: string): (r: Option<int>)
    ensures r.Some? ==> HasDigit(t)
  {
    var (neg, body) := SplitSign(t);
    if DigitGroups(body) then
      assert t[|t| - |body|] == body[0];
      var v: int := DigitsValue(DropUnderscores(body));
      Some(if neg then -v else v)
    else None
  }

  /** Python's `int(s)`: surrounding whitespace, an optional sign, and
      decimal digits with single underscores between them; `None` where
      Python raises `ValueError`. */
  function PythonInt(s: string): (r: Option<int>)
    ensures r.Some? ==> HasDigit(s)
  {
    var t := Strip(s);
    var r := IntLiteral(t);
    if r.Some? then
      StripKeepsDigit(s);
      r
    else r
  }

  lemma StripKeepsDigit(s: string)
    requires HasDigit(Strip(s))
    ensures HasDigit(s)
  {
    DigitInSlice(s, |s| - |LStrip(s)|, Strip(s));
  }

  predicate HasDigit(s: string) {
    exists k :: 0 <= k < |s| && IsDigit(s[k])
  }

  lemma DigitInSlice(s: string, lo: nat, t: string)
    requires lo + |t| <= |s| && forall k :: 0 <= k < |t| ==> t[k] == s[lo + k]
    requires HasDigit(t)
    ensures HasDigit(s)
  {
    var k :| 0 <= k < |t| && IsDigit(t[k]);
    assert IsDigit(s[lo + k]);
  }

  /** `int()` reads back what `str()` prints. */
  lemma IntLiteralReadsBack(i: int)
    ensures IntLiteral(IntToString(i)) == Some(i)
  {
    var x := IntToString(i);
    var n := if i < 0 then -i else i;
    var digits := NatToString(n);
    assert SplitSign(x) == (i < 0, digits);
    DropUnderscoresOfDigits(digits);
  }

  /** `int()` reads back what `str()` prints, whatever whitespace surrounds it. */
  lemma PythonIntReadsBack(lead: string, i: int, trail: string)
    requires forall k :: 0 <= k < |lead| ==> IsSpace(lead[k])
    requires forall k :: 0 <= k < |trail| ==> IsSpace(trail[k])
    ensures PythonInt(lead + IntToString(i) + trail) == Some(i)
  {
    var x := IntToString(i);
    var digits := NatToString(if i < 0 then -i else i);
    assert x[|x| - 1] == digits[|digits| - 1];
    assert x[0] == '-' || x[0] == digits[0];
    StripPadded(lead, x, trail);
    IntLiteralReadsBack(i);
  }

  // ---------------------------------------------------------------------
  // One output line

  /** The piece after the first marker, up to the next marker if any:
      `line.split("進捗:")[1]`, or `None` when the marker is absent. */
  function AfterMarker(line: string): Option<string> {
    match IndexOf(line, Marker)
    case None => None
    case Some(i) => Some(UpToMarker(line[i + |Marker|..]))
  }

  function UpToMarker(rest: string): (u: string)
    ensures |u| <= |rest| && u == rest[..|u|]
  {
    match IndexOf(rest, Marker)
    case None => rest
    case Some(j) => rest[..j]
  }

  /** `seg.strip()`, cut before its first `%` when it has one. */
  function PercentPrefix(seg: string): Option<string> {
    var t := Strip(seg);
    match IndexOfChar(t, '%')
    case None => None
    case Some(k) => Some(t[..k])
  }

  /** The value the `try` block of the loop assigns for one line, or
      `None` when it assigns nothing (no marker, no `%`, or `int()`
      raising, which the bare `except` swallows). */
  function Reading(line: string): Option<int> {
    match AfterMarker(line)
    case None => None
    case Some(seg) =>
      match PercentPrefix(seg)
      case None => None
      case Some(num) => PythonInt(num)
  }

  /** One iteration of the loop: the progress after `line`. */
  function ProgressStep(progress: int, line: string): (r: int)
    ensures !Contains(line, Marker) ==> r == progress
    ensures r != progress ==> Reading(line) == Some(r)
  {
    Updated(progress, Reading(line))
  }

  /** The progress after a line read as `reading`. */
  function Updated(progress: int, reading: Option<int>): int {
    match reading
    case None => progress
    case Some(v) => v
  }

  /** A line without a single digit never sets the progress. */
  lemma DigitlessLineIsIgnored(line: string)
    requires !HasDigit(line)
    ensures Reading(line).None?
  {
    match AfterMarker(line)
    case None =>
    case Some(seg) =>
      DigitlessSegment(line, seg);
      match PercentPrefix(seg)
      case None =>
      case Some(num) => DigitlessPrefix(seg, num);
  }

  lemma DigitlessSegment(line: string, seg: string)
    requires !HasDigit(line) && AfterMarker(line) == Some(seg)
    ensures !HasDigit(seg)
  {
    var i := IndexOf(line, Marker).value;
    var rest := line[i + |Marker|..];
    forall k | 0 <= k < |seg|
      ensures !IsDigit(seg[k])
    {
      assert seg[k] == rest[k] == line[i + |Marker| + k];
    }
  }

  lemma DigitlessPrefix(seg: string, num: string)
    requires !HasDigit(seg) && PercentPrefix(seg) == Some(num)
    ensures !HasDigit(num)
  {
    var t := Strip(seg);
    var lo := |seg| - |LStrip(seg)|;
    var j := IndexOfChar(t, '%').value;
    assert num == t[..j];
    forall k | 0 <= k < |num|
      ensures !IsDigit(num[k])
    {
      assert num[k] == t[k];
      assert t[k] == seg[lo + k];
    }
  }

  /** The marker occurs first right after `pre` when `pre` holds no `進`. */
  lemma MarkerFirstAt(pre: string, rest: string)
    requires '進' !in pre
    ensures IndexOf(pre + Marker + rest, Marker) == Some(|pre|)
  {
    var line := pre + Marker + rest;
    assert OccursAt(line, Marker, |pre|) by {
      assert line[|pre|..|pre| + |Marker|] == Marker;
    }
    forall j | 0 <= j < |pre|
      ensures !OccursAt(line, Marker, j)
    {
      assert line[j] == pre[j];
      assert j + |Marker| <= |line| ==> line[j..j + |Marker|][0] == line[j];
    }
  }

  /** The piece after the marker begins with any text free of `進`. */
  lemma UpToMarkerKeeps(head: string, rest: string)
    requires '進' !in head
    ensures var u := UpToMarker(head + rest); |head| <= |u| && u[..|head|] == head
  {
    var s := head + rest;
    match IndexOf(s, Marker)
    case None =>
    case Some(j) =>
      forall i | 0 <= i < |head|
        ensures !OccursAt(s, Marker, i)
      {
        assert s[i] == head[i];
        assert i + |Marker| <= |s| ==> s[i..i + |Marker|][0] == s[i];
      }
      assert s[..j][..|head|] == head;
  }

  /** The first `%` of a text that starts with digits and then `%`. */
  lemma FirstPercent(t: string, digits: string)
    requires |digits| < |t| && t[..|digits|] == digits && AllDigits(digits)
    requires t[|digits|] == '%'
    ensures IndexOfChar(t, '%') == Some(|digits|)
  {
    forall j | 0 <= j < |digits|
      ensures t[j] != '%'
    {
      assert t[j] == t[..|digits|][j];
    }
    assert t[..|digits| + 1][|digits|] == '%';
  }

  /** A segment that, without its leading whitespace, is digits, `%` and
      anything: the text before the `%` is the digits. */
  lemma PercentPrefixOfDigits(seg: string, digits: string)
    requires |digits| > 0 && AllDigits(digits)
    requires var body := LStrip(seg); |digits| < |body| && body[..|digits|] == digits && body[|digits|] == '%'
    ensures PercentPrefix(seg) == Some(digits)
  {
    var body := LStrip(seg);
    RStripKeepsDigits(body, digits);
    FirstPercent(Strip(seg), digits);
  }

  lemma RStripKeepsDigits(body: string, digits: string)
    requires |digits| < |body| && body[..|digits|] == digits && body[|digits|] == '%'
    ensures var t := RStrip(body); |digits| < |t| && t[..|digits|] == digits && t[|digits|] == '%'
  {
    var t := RStrip(body);
    assert |t| > |digits|;
    assert t[..|digits|] == body[..|digits|];
  }

  /** Spaces, digits and a percent sign hold no `進`. */
  lemma NoMarkerStart(ws: string, digits: string)
    requires forall k :: 0 <= k < |ws| ==> IsSpace(ws[k])
    requires AllDigits(digits)
    ensures '進' !in ws + digits + "%"
  {
    var head := ws + digits + "%";
    forall k | 0 <= k < |head|
      ensures head[k] != '進'
    {
      if k < |ws| {
        assert head[k] == ws[k];
      } else if k < |ws| + |digits| {
        assert head[k] == digits[k - |ws|];
      }
    }
  }

  /** After a first marker preceded by no `進`, the piece read begins with
      any text free of `進`. */
  lemma AfterMarkerKeeps(pre: string, head: string, post: string)
    requires '進' !in pre && '進' !in head
    ensures var r := AfterMarker(pre + Marker + head + post);
      r.Some? && |head| <= |r.value| && r.value[..|head|] == head
  {
    var line := pre + Marker + (head + post);
    assert pre + Marker + head + post == line;
    MarkerFirstAt(pre, head + post);
    assert line[|pre| + |Marker|..] == head + post;
    UpToMarkerKeeps(head, post);
  }

  /** A segment that starts with whitespace, digits and `%` has those
      digits before its first `%`. */
  lemma SegmentOfDigits(seg: string, ws: string, digits: string)
    requires forall k :: 0 <= k < |ws| ==> IsSpace(ws[k])
    requires |digits| > 0 && AllDigits(digits)
    requires |ws + digits + "%"| <= |seg| && seg[..|ws + digits + "%"|] == ws + digits + "%"
    ensures PercentPrefix(seg) == Some(digits)
  {
    var head := ws + digits + "%";
    var body := digits + "%" + seg[|head|..];
    assert seg == ws + body by {
      assert seg == seg[..|head|] + seg[|head|..];
    }
    LStripIndent(ws, body);
    PercentPrefixOfDigits(seg, digits);
  }

  /** A segment whose text before `%` is a rendered number reads as it. */
  lemma ReadingOfSegment(line: string, seg: string, n: nat)
    requires AfterMarker(line) == Some(seg)
    requires PercentPrefix(seg) == Some(NatToString(n))
    ensures Reading(line) == Some(n)
  {
    NatReadsBack(n);
  }

  lemma NatReadsBack(n: nat)
    ensures PythonInt(NatToString(n)) == Some(n)
  {
    var x := IntToString(n);
    assert "" + x + "" == x;
    PythonIntReadsBack("", n, "");
  }

  /** A progress line, as the scraper's progress bar prints it, sets the
      progress to the number before the `%`: any text without `進` before
      the marker, whitespace, the decimal number, `%`, then anything. */
  lemma ProgressLineIsRead(pre: string, ws: string, n: nat, post: string)
    requires '進' !in pre
    requires forall k :: 0 <= k < |ws| ==> IsSpace(ws[k])
    ensures Reading(pre + Marker + ws + NatToString(n) + "%" + post) == Some(n)
  {
    var digits := NatToString(n);
    var head := ws + digits + "%";
    var line := pre + Marker + ws + digits + "%" + post;
    NoMarkerStart(ws, digits);
    assert line == pre + Marker + head + post;
    AfterMarkerKeeps(pre, head, post);
    var seg := AfterMarker(line).value;
    SegmentOfDigits(seg, ws, digits);
    ReadingOfSegment(line, seg, n);
  }

  /** A line of the progress bar the scraper shows while it evaluates jobs. */
  lemma ProgressBarLine()
    ensures Reading("案件評価の進捗:  40%|████      | 4/10") == Some(40)
  {
    assert NatToString(40) == "40" by {
      assert NatToString(4) == "4";
    }
    assert "案件評価の進捗:  40%|████      | 4/10"
      == "案件評価の" + Marker + "  " + NatToString(40) + "%" + "|████      | 4/10";
    ProgressLineIsRead("案件評価の", "  ", 40, "|████      | 4/10");
  }

  // ---------------------------------------------------------------------
  // The whole run

  /** The progress after the loop has read `lines`, starting from
      `progress`, each line read by `read`. */
  function Follow(progress: int, lines: seq<string>, read: string -> Option<int>): int
    decreases |lines|
  {
    if |lines| == 0 then progress else Follow(Updated(progress, read(lines[0])), lines[1..], read)
  }

  /** The loop over the scraper's output. */
  function ReadProgress(progress: int, lines: seq<string>): int {
    Follow(progress, lines, Reading)
  }

  /** Reading lines in two parts is reading them at once. */
  lemma {:induction false} FollowAppend(progress: int, a: seq<string>, b: seq<string>, read: string -> Option<int>)
    ensures Follow(progress, a + b, read) == Follow(Follow(progress, a, read), b, read)
    decreases |a|
  {
    if |a| > 0 {
      assert (a + b)[0] == a[0];
      assert (a + b)[1..] == a[1..] + b;
      FollowAppend(Updated(progress, read(a[0])), a[1..], b, read);
    } else {
      assert a + b == b;
    }
  }

  /** Lines none of which sets the progress leave it as it was. */
  lemma {:induction false} SilentLinesKeepProgress(progress: int, lines: seq<string>, read: string -> Option<int>)
    requires forall k :: 0 <= k < |lines| ==> read(lines[k]).None?
    ensures Follow(progress, lines, read) == progress
  {
    if |lines| > 0 {
      assert forall k :: 0 <= k < |lines| - 1 ==> lines[1..][k] == lines[k + 1];
      SilentLinesKeepProgress(progress, lines[1..], read);
    }
  }

  /** The progress is the value of the last line that sets it. */
  lemma LastReadingWins(progress: int, lines: seq<string>, k: nat, read: string -> Option<int>)
    requires k < |lines| && read(lines[k]).Some?
    requires forall j :: k < j < |lines| ==> read(lines[j]).None?
    ensures Follow(progress, lines, read) == read(lines[k]).value
  {
    var before := lines[..k];
    var after := lines[k + 1..];
    assert lines == before + [lines[k]] + after;
    FollowAppend(progress, before + [lines[k]], after, read);
    FollowAppend(progress, before, [lines[k]], read);
    assert forall j :: 0 <= j < |after| ==> after[j] == lines[k + 1 + j];
    SilentLinesKeepProgress(Follow(progress, before + [lines[k]], read), after, read);
  }

  /** What the server reports once the scraper has exited. */
  datatype RunStatus = RunStatus(progress: int, logs: seq<string>, error: Option<string>)

  /** The log: every output line, stripped, in order. */
  function Logs(lines: seq<string>): (logs: seq<string>)
    ensures |logs| == |lines|
    ensures forall k :: 0 <= k < |lines| ==> logs[k] == Strip(lines[k])
  {
    seq(|lines|, k requires 0 <= k < |lines| => Strip(lines[k]))
  }

  /** `run_main_py` after `subprocess.Popen`: the progress starts at 0 and
      follows the output; exit code 0 sets it to 100, any other code
      records the failure message and leaves the last progress read. */
  function FinishRun(lines: seq<string>, returnCode: int): (st: RunStatus)
    ensures |st.logs| == |lines|
    ensures forall k :: 0 <= k < |lines| ==> st.logs[k] == Strip(lines[k])
    ensures st.error.None? <==> returnCode == 0
    ensures returnCode == 0 ==> st.progress == Done
    ensures returnCode != 0 ==> st.error == Some(FailureMessage)
  {
    RunStatus(
      if returnCode == 0 then Done else ReadProgress(0, lines),
      Logs(lines),
      if returnCode == 0 then None else Some(FailureMessage))
  }

  /** A failed run reports the last progress read, or 0 when no line set
      one; a successful one reports 100 whatever was read. */
  lemma FailedRunKeepsLastProgress(lines: seq<string>, returnCode: int, k: nat)
    requires returnCode != 0
    requires k < |lines| && Reading(lines[k]).Some?
    requires forall j :: k < j < |lines| ==> Reading(lines[j]).None?
    ensures FinishRun(lines, returnCode).progress == Reading(lines[k]).value
    ensures FinishRun(lines, returnCode).error == Some(FailureMessage)
  {
    LastReadingWins(0, lines, k, Reading);
  }

  lemma SilentFailedRunReportsZero(lines: seq<string>, returnCode: int)
    requires returnCode != 0
    requires forall k :: 0 <= k < |lines| ==> Reading(lines[k]).None?
    ensures FinishRun(lines, returnCode).progress == 0
  {
    SilentLinesKeepProgress(0, lines, Reading);
  }
}
