/** Posting dates (`parse_date_text` in src/processors/job_extractor.py and
    the `isoformat()` rendering used by `save_jobs_to_json`).  A date is the
    first match of `(\d{4})年(\d{2})月(\d{2})日`, handed to Python's
    `datetime(year, month, day)`, which rejects dates outside the calendar. */
module Dates {
  import opened Wrappers
  import opened Text

  /** A `datetime` at midnight, as `parse_date_text` builds it. */
  datatype Date = Date(year: int, month: int, day: int)

  predicate IsLeapYear(y: int) {
    y % 4 == 0 && (y % 100 != 0 || y % 400 == 0)
  }

  function DaysInMonth(y: int, m: int): (n: int)
    requires 1 <= m <= 12
    ensures 28 <= n <= 31
  {
    if m == 2 then (if IsLeapYear(y) then 29 else 28)
    else if m == 4 || m == 6 || m == 9 || m == 11 then 30
    else 31
  }

  /** The dates Python's `datetime` constructor accepts (MINYEAR 1 to MAXYEAR 9999). */
  predicate ValidDate(d: Date) {
    && 1 <= d.year <= 9999
    && 1 <= d.month <= 12
    && 1 <= d.day <= DaysInMonth(d.year, d.month)
  }

  // ---------------------------------------------------------------------
  // The date pattern

  predicate DigitsAt(s: string, i: nat, n: nat) {
    i + n <= |s| && AllDigits(s[i..i + n])
  }

  /** `(\d{4})年(\d{2})月(\d{2})日` matches at index `i`. */
  predicate PatternAt(s: string, i: int) {
    && 0 <= i && i + 11 <= |s|
    && DigitsAt(s, i, 4) && s[i + 4] == '年'
    && DigitsAt(s, i + 5, 2) && s[i + 7] == '月'
    && DigitsAt(s, i + 8, 2) && s[i + 10] == '日'
  }

  /** The match `re.search` reports: the leftmost one. */
  predicate FirstPatternAt(s: string, i: int) {
    PatternAt(s, i) && forall j :: 0 <= j < i ==> !PatternAt(s, j)
  }

  /** The leftmost match at or after `from`. */
  function FindPattern(s: string, from: nat): (r: Option<nat>)
    ensures r.Some? ==> from <= r.value && PatternAt(s, r.value)
    ensures r.Some? ==> forall j :: from <= j < r.value ==> !PatternAt(s, j)
    ensures r.None? ==> forall j :: from <= j ==> !PatternAt(s, j)
    decreases |s| - from
  {
    if from + 11 > |s| then None
    else if PatternAt(s, from) then Some(from)
    else FindPattern(s, from + 1)
  }

  /** The three captured groups, read as integers. */
  function DateAt(s: string, i: nat): Date
    requires PatternAt(s, i)
  {
    Date(DigitsValue(s[i..i + 4]), DigitsValue(s[i + 5..i + 7]), DigitsValue(s[i + 8..i + 10]))
  }

  /** The error Python's `datetime(year, month, day)` raises, if any. */
  function CalendarCheck(d: Date): (r: Option<string>)
    ensures r.None? <==> ValidDate(d)
  {
    if !(1 <= d.year <= 9999) then Some("year " + IntToString(d.year) + " is out of range")
    else if !(1 <= d.month <= 12) then Some("month must be in 1..12")
    else if !(1 <= d.day <= DaysInMonth(d.year, d.month)) then Some("day is out of range for month")
    else None
  }

  /** `parse_date_text(text)`: the first date-shaped match, which must also be
      a calendar date; otherwise the `ValueError`. */
  function ParseDateText(text: string): (r: Result<Date>)
    ensures r.Success? ==> ValidDate(r.value)
    ensures r.Success? ==> exists i :: FirstPatternAt(text, i) && r.value == DateAt(text, i)
    ensures r.Success? <==> exists i :: FirstPatternAt(text, i) && ValidDate(DateAt(text, i))
    ensures (forall i :: !PatternAt(text, i)) ==> r == Failure("Invalid date format: " + text)
  {
    match FindPattern(text, 0)
    case None => Failure("Invalid date format: " + text)
    case Some(i) =>
      assert FirstPatternAt(text, i);
      assert forall j :: FirstPatternAt(text, j) ==> j == i;
      var d := DateAt(text, i);
      match CalendarCheck(d)
      case Some(message) => Failure(message)
      case None => Success(d)
  }

  // ---------------------------------------------------------------------
  // Renderings

  /** A date the way postings show it, e.g. 2024年01月05日. */
  function JapaneseDate(d: Date): string
    requires ValidDate(d)
  {
    FixedDigits(d.year, 4) + "年" + FixedDigits(d.month, 2) + "月" + FixedDigits(d.day, 2) + "日"
  }

  /** Parsing a date written the way postings show it gives the date back. */
  lemma ParseJapaneseDate(d: Date)
    requires ValidDate(d)
    ensures ParseDateText(JapaneseDate(d)) == Success(d)
  {
    var s := JapaneseDate(d);
    assert s[0..4] == FixedDigits(d.year, 4);
    assert s[5..7] == FixedDigits(d.month, 2);
    assert s[8..10] == FixedDigits(d.day, 2);
    assert PatternAt(s, 0);
    assert FindPattern(s, 0) == Some(0);
  }

  /** `datetime.isoformat()` of a midnight date: `YYYY-MM-DDT00:00:00`. */
  function IsoFormat(d: Date): (s: string)
    requires ValidDate(d)
    ensures |s| == 19
  {
    FixedDigits(d.year, 4) + "-" + FixedDigits(d.month, 2) + "-" + FixedDigits(d.day, 2) + "T00:00:00"
  }

  /** Reads back an `IsoFormat` string: `datetime.fromisoformat` restricted to
      midnight timestamps. */
  function ParseIso(s: string): (r: Option<Date>)
    ensures r.Some? ==> ValidDate(r.value)
  {
    if |s| == 19 && DigitsAt(s, 0, 4) && s[4] == '-' && DigitsAt(s, 5, 2) && s[7] == '-'
       && DigitsAt(s, 8, 2) && s[10..] == "T00:00:00"
    then
      var d := Date(DigitsValue(s[0..4]), DigitsValue(s[5..7]), DigitsValue(s[8..10]));
      if ValidDate(d) then Some(d) else None
    else None
  }

  /** The ISO rendering reads back as the same date. */
  lemma IsoRoundTrip(d: Date)
    requires ValidDate(d)
    ensures ParseIso(IsoFormat(d)) == Some(d)
  {
    var s := IsoFormat(d);
    assert s[0..4] == FixedDigits(d.year, 4);
    assert s[5..7] == FixedDigits(d.month, 2);
    assert s[8..10] == FixedDigits(d.day, 2);
    assert s[10..] == "T00:00:00";
  }
}
