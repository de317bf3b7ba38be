/** The matcher of src/processors/job_matcher.py around its language-model
    call: the evaluation of one posting with its failure path, the
    evaluation loop of `find_matching_jobs`, and the shapes of the two
    files it writes (the CSV ledger of every evaluation and the results
    document).  The model call is the `Oracle` parameter. */
module Matcher {
  import opened Wrappers
  import opened Text
  import opened Budgets
  import opened Json
  import opened Extractor
  import opened Profiles
  import opened Matches

  /** What the model's answer yields once decoded: a score with reasons and
      concerns, or the message of whatever was raised on the way (the
      call itself, `json.loads`, a missing key, `float()`). */
  datatype OracleReply = Scored(score: real, reasons: seq<string>, concerns: seq<string>) | Raised(message: string)

  type Oracle = (JobItem, UserProfile) -> OracleReply

  const ErrorPrefix: string := "評価エラー: "
  const NoJobsFileMessage: string := "分析済みの案件ファイルが見つかりません"

  /** The message of the `AttributeError` Python raises when the profile
      object lacks `name`. */
  function NoAttribute(name: string): string {
    "'UserProfile' object has no attribute '" + name + "'"
  }

  /** The first profile attribute the prompt reads that the profile does
      not have: `experience_years` is read before `min_budget`. */
  function MissingAttribute(p: UserProfile): (r: Option<string>)
    ensures r.None? <==> p.experienceYears.Some? && p.minBudget.Some?
    ensures p.experienceYears.None? ==> r == Some(NoAttribute("experience_years"))
  {
    if p.experienceYears.None? then Some(NoAttribute("experience_years"))
    else if p.minBudget.None? then Some(NoAttribute("min_budget"))
    else None
  }

  /** The match the `except` branch returns for an error with message `e`. */
  function ErrorMatch(job: JobItem, e: string): (m: JobMatch)
    ensures m.job == job && m.score == 0.0 && m.reasons == []
    ensures |m.concerns| == 1 && StartsWith(m.concerns[0], ErrorPrefix)
    ensures m.concerns[0][|ErrorPrefix|..] == e
  {
    var concern := ErrorPrefix + e;
    assert concern[..|ErrorPrefix|] == ErrorPrefix;
    JobMatch(job, 0.0, [], [concern])
  }

  /** `evaluate_job_with_llm` as written: the prompt is built before the
      `try`, so reading a profile attribute that does not exist raises
      out of the method instead of becoming an error match. */
  function EvaluateAsWritten(oracle: Oracle, job: JobItem, profile: UserProfile): (r: Result<JobMatch>)
    ensures r.Failure? <==> MissingAttribute(profile).Some?
  {
    match MissingAttribute(profile)
    case Some(e) => Failure(e)
    case None =>
      match oracle(job, profile)
      case Scored(s, reasons, concerns) => Success(JobMatch(job, s, reasons, concerns))
      case Raised(e) => Success(ErrorMatch(job, e))
  }

  /** A profile built by the repository's own classes makes the as-written
      evaluation raise, whatever the model would have answered. */
  lemma DeclaredProfileEscapes(oracle: Oracle, job: JobItem, skills: seq<string>, categories: seq<string>,
                               workTypes: seq<string>, description: string)
    ensures EvaluateAsWritten(oracle, job, DeclaredProfile(skills, categories, workTypes, description))
            == Failure(NoAttribute("experience_years"))
  {
  }

  /** `evaluate_job_with_llm` with the prompt built inside the `try`, as
      the comment on its `except` branch intends: every error, including a
      missing profile attribute, becomes a zero-score match. */
  function Evaluate(oracle: Oracle, job: JobItem, profile: UserProfile): (m: JobMatch)
    ensures m.job == job
    ensures MissingAttribute(profile).None? && oracle(job, profile).Scored? ==>
      var a := oracle(job, profile); m.score == a.score && m.reasons == a.reasons && m.concerns == a.concerns
    ensures MissingAttribute(profile).Some? || oracle(job, profile).Raised? ==>
      m.score == 0.0 && m.reasons == [] && |m.concerns| == 1 && StartsWith(m.concerns[0], ErrorPrefix)
  {
    match MissingAttribute(profile)
    case Some(e) => ErrorMatch(job, e)
    case None =>
      match oracle(job, profile)
      case Scored(s, reasons, concerns) => JobMatch(job, s, reasons, concerns)
      case Raised(e) => ErrorMatch(job, e)
  }

  /** The correction changes only the escaping case: where the as-written
      evaluation returns, both agree, and where it raises, the corrected one
      reports that same error as its only concern. */
  lemma EvaluateCorrectsOnlyTheEscape(oracle: Oracle, job: JobItem, profile: UserProfile)
    ensures var w := EvaluateAsWritten(oracle, job, profile);
      && (w.Success? ==> Evaluate(oracle, job, profile) == w.value)
      && (w.Failure? ==> Evaluate(oracle, job, profile) == ErrorMatch(job, w.error))
  {
  }

  /** A failed evaluation never reaches a positive threshold, so it is in
      the ledger but never among the matches. */
  lemma FailedEvaluationNotMatched(oracle: Oracle, job: JobItem, profile: UserProfile,
                                   ledger: seq<JobMatch>, minScore: real, maxJobs: int)
    requires oracle(job, profile).Raised? && minScore > 0.0
    ensures Evaluate(oracle, job, profile) !in Rank(ledger, minScore, maxJobs)
  {
  }

  // ---------------------------------------------------------------------
  // find_matching_jobs

  /** Every evaluation (the ledger written to CSV) and the returned matches. */
  datatype MatchRun = MatchRun(ledger: seq<JobMatch>, matches: seq<JobMatch>)

  /** `find_matching_jobs` as written.  `latest` is the content of the most
      recent extracted-jobs file, `None` when there is none.  Each posting
      goes through the as-written evaluation, so a profile without the two
      attributes the prompt reads makes the first evaluation raise, and
      the exception leaves the method before the ledger is written. */
  method FindMatchingJobs(latest: Option<seq<JobItem>>, profile: UserProfile, oracle: Oracle,
                          minScore: real, maxJobs: int)
    returns (r: Result<MatchRun>)
    ensures r.Failure? <==> latest.None? || (|latest.value| > 0 && MissingAttribute(profile).Some?)
    ensures latest.None? ==> r == Failure(NoJobsFileMessage)
    ensures latest.Some? && r.Failure? ==> r == Failure(MissingAttribute(profile).value)
    ensures r.Success? ==> |r.value.ledger| == |latest.value|
    ensures r.Success? ==> forall i :: 0 <= i < |latest.value| ==>
      r.value.ledger[i] == Evaluate(oracle, latest.value[i], profile)
    ensures r.Success? ==> r.value.matches == Rank(r.value.ledger, minScore, maxJobs)
  {
    if latest.None? {
      return Failure(NoJobsFileMessage);
    }
    var jobs := latest.value;
    var ledger: seq<JobMatch> := [];
    var kept: seq<JobMatch> := [];
    for i := 0 to |jobs|
      invariant |ledger| == i
      invariant i > 0 ==> MissingAttribute(profile).None?
      invariant forall k :: 0 <= k < i ==> ledger[k] == Evaluate(oracle, jobs[k], profile)
      invariant kept == AboveThreshold(ledger, minScore)
    {
      var w := EvaluateAsWritten(oracle, jobs[i], profile);
      if w.Failure? {
        return Failure(w.error);
      }
      var m := w.value;
      EvaluateCorrectsOnlyTheEscape(oracle, jobs[i], profile);
      AboveThresholdSnoc(ledger, m, minScore);
      ledger := ledger + [m];
      if m.score >= minScore {
        kept := kept + [m];
      }
    }
    var sorted := SortDesc(kept);
    r := Success(MatchRun(ledger, TakePrefix(sorted, maxJobs)));
  }

  /** `find_matching_jobs` over the corrected evaluation: only a missing
      jobs file raises, and every posting has its place in the ledger. */
  method FindMatchingJobsFixed(latest: Option<seq<JobItem>>, profile: UserProfile, oracle: Oracle,
                               minScore: real, maxJobs: int)
    returns (r: Result<MatchRun>)
    ensures r.Failure? <==> latest.None?
    ensures r.Failure? ==> r.error == NoJobsFileMessage
    ensures r.Success? ==> |r.value.ledger| == |latest.value|
    ensures r.Success? ==> forall i :: 0 <= i < |latest.value| ==>
      r.value.ledger[i] == Evaluate(oracle, latest.value[i], profile)
    ensures r.Success? ==> r.value.matches == Rank(r.value.ledger, minScore, maxJobs)
  {
    if latest.None? {
      return Failure(NoJobsFileMessage);
    }
    var jobs := latest.value;
    var ledger: seq<JobMatch> := [];
    var kept: seq<JobMatch> := [];
    for i := 0 to |jobs|
      invariant |ledger| == i
      invariant forall k :: 0 <= k < i ==> ledger[k] == Evaluate(oracle, jobs[k], profile)
      invariant kept == AboveThreshold(ledger, minScore)
    {
      var m := Evaluate(oracle, jobs[i], profile);
      AboveThresholdSnoc(ledger, m, minScore);
      ledger := ledger + [m];
      if m.score >= minScore {
        kept := kept + [m];
      }
    }
    var sorted := SortDesc(kept);
    r := Success(MatchRun(ledger, TakePrefix(sorted, maxJobs)));
  }

  // ---------------------------------------------------------------------
  // save_all_evaluations_to_csv

  const CsvHeader: seq<string> :=
    ["タイトル", "カテゴリ", "予算形態", "最小予算", "最大予算", "関連度スコア", "マッチング理由", "注意点", "URL"]
  const ListSeparator: string := " | "

  /** Python's nearest-integer rounding of a non-negative value, ties to even. */
  function RoundHalfEven(y: real): (n: nat)
    requires y >= 0.0
    ensures -0.5 <= (n as real) - y <= 0.5
    ensures (n as real) - y == 0.5 || y - (n as real) == 0.5 ==> n % 2 == 0
  {
    var f := y.Floor;
    var frac := y - f as real;
    if frac < 0.5 then f
    else if frac > 0.5 then f + 1
    else if f % 2 == 0 then f
    else f + 1
  }

  /** `f"{x:.1f}"`: optional minus sign, integer digits, a point, one digit. */
  function FormatOneDecimal(x: real): (s: string)
    ensures |s| >= 3 && s[|s| - 2] == '.' && IsDigit(s[|s| - 1])
  {
    var a := if x < 0.0 then -x else x;
    var n := RoundHalfEven(a * 10.0);
    (if x < 0.0 then "-" else "") + NatToString(n / 10) + "." + [DigitChar(n % 10)]
  }

  /** Reads digits, a point and one digit. */
  function ParseUnsigned(body: string): Option<real> {
    if |body| >= 3 && body[|body| - 2] == '.' && AllDigits(body[..|body| - 2]) && IsDigit(body[|body| - 1]) then
      Some(DigitsValue(body[..|body| - 2]) as real + DigitValue(body[|body| - 1]) as real / 10.0)
    else None
  }

  /** Reads a number written with one decimal, with an optional minus sign. */
  function ParseOneDecimal(s: string): Option<real> {
    if |s| > 0 && s[0] == '-' then
      match ParseUnsigned(s[1..])
      case Some(v) => Some(-v)
      case None => None
    else ParseUnsigned(s)
  }

  lemma ParseTenths(n: nat)
    ensures ParseUnsigned(NatToString(n / 10) + "." + [DigitChar(n % 10)]) == Some((n as real) / 10.0)
  {
    ParsePointed(NatToString(n / 10), DigitChar(n % 10));
    TenthsSplit(n);
  }

  /** Digits, a point and a digit read as the whole part plus tenths. */
  lemma ParsePointed(digits: string, c: char)
    requires |digits| >= 1 && AllDigits(digits) && IsDigit(c)
    ensures ParseUnsigned(digits + "." + [c]) == Some(DigitsValue(digits) as real + DigitValue(c) as real / 10.0)
  {
    var body := digits + "." + [c];
    assert body[..|body| - 2] == digits;
  }

  lemma TenthsSplit(n: nat)
    ensures (n as real) / 10.0 == ((n / 10) as real) + ((n % 10) as real) / 10.0
  {
    assert n == (n / 10) * 10 + n % 10;
  }

  /** The score cell reads back as the score to within half a unit in the
      last place written. */
  lemma OneDecimalRoundTrip(x: real)
    ensures var p := ParseOneDecimal(FormatOneDecimal(x));
      p.Some? && -0.05 <= p.value - x <= 0.05
  {
    var a := if x < 0.0 then -x else x;
    var n := RoundHalfEven(a * 10.0);
    FormatReadsTenths(x);
    TenthsClose(x, a, n);
  }

  /** The cell reads back as the rounded tenths, with the sign of `x`. */
  lemma FormatReadsTenths(x: real)
    ensures var a := if x < 0.0 then -x else x;
      var t := (RoundHalfEven(a * 10.0) as real) / 10.0;
      ParseOneDecimal(FormatOneDecimal(x)) == Some(if x < 0.0 then -t else t)
  {
    var a := if x < 0.0 then -x else x;
    var n := RoundHalfEven(a * 10.0);
    FormatShape(x, n);
    SignedTenths(x < 0.0, n);
  }

  lemma FormatShape(x: real, n: nat)
    requires n == RoundHalfEven((if x < 0.0 then -x else x) * 10.0)
    ensures FormatOneDecimal(x) == (if x < 0.0 then "-" else "") + NatToString(n / 10) + "." + [DigitChar(n % 10)]
  {
  }

  /** An optional minus sign, the tenths `n` written with one decimal. */
  lemma SignedTenths(neg: bool, n: nat)
    ensures var t := (n as real) / 10.0;
      ParseOneDecimal((if neg then "-" else "") + NatToString(n / 10) + "." + [DigitChar(n % 10)])
        == Some(if neg then -t else t)
  {
    var body := NatToString(n / 10) + "." + [DigitChar(n % 10)];
    var s := (if neg then "-" else "") + NatToString(n / 10) + "." + [DigitChar(n % 10)];
    ParseTenths(n);
    if neg {
      assert s == "-" + body;
      assert s[1..] == body;
    } else {
      assert s == body;
      assert IsDigit(s[0]);
    }
  }

  lemma TenthsClose(x: real, a: real, n: nat)
    requires a == if x < 0.0 then -x else x
    requires -0.5 <= (n as real) - a * 10.0 <= 0.5
    ensures var t := (n as real) / 10.0; -0.05 <= (if x < 0.0 then -t else t) - x <= 0.05
  {
  }

  /** How Python's `csv` writer renders `None` and an integer. */
  function NatCell(o: Option<nat>): string {
    match o
    case None => ""
    case Some(n) => NatToString(n)
  }

  function ReadNatCell(cell: string): Option<Option<nat>> {
    if cell == [] then Some(None)
    else if AllDigits(cell) then Some(Some(DigitsValue(cell)))
    else None
  }

  function StringCell(o: Option<string>): string {
    match o
    case None => ""
    case Some(s) => s
  }

  /** One ledger row, in the header's column order. */
  function CsvRow(m: JobMatch): (row: seq<string>)
    ensures |row| == |CsvHeader|
    ensures row[0] == m.job.title && row[1] == m.job.category && row[2] == m.job.budget.kind
    ensures row[6] == Join(m.reasons, ListSeparator) && row[7] == Join(m.concerns, ListSeparator)
    ensures m.reasons == [] ==> row[6] == ""
    ensures |m.concerns| == 1 ==> row[7] == m.concerns[0]
    ensures row[8] == if m.job.url.Some? then m.job.url.value else ""
  {
    [m.job.title, m.job.category, m.job.budget.kind,
     NatCell(m.job.budget.minAmount), NatCell(m.job.budget.maxAmount),
     FormatOneDecimal(m.score),
     Join(m.reasons, ListSeparator), Join(m.concerns, ListSeparator),
     StringCell(m.job.url)]
  }

  /** The budget and score cells of a row read back as the evaluation's
      amounts and (to one decimal) its score. */
  lemma CsvRowReadsBack(m: JobMatch)
    ensures ReadNatCell(CsvRow(m)[3]) == Some(m.job.budget.minAmount)
    ensures ReadNatCell(CsvRow(m)[4]) == Some(m.job.budget.maxAmount)
    ensures var p := ParseOneDecimal(CsvRow(m)[5]); p.Some? && -0.05 <= p.value - m.score <= 0.05
  {
    OneDecimalRoundTrip(m.score);
  }

  /** A failed evaluation's row: no reasons, and the error, with its
      prefix, as the only concern. */
  lemma ErrorMatchRow(job: JobItem, e: string)
    ensures CsvRow(ErrorMatch(job, e))[6] == ""
    ensures CsvRow(ErrorMatch(job, e))[7] == ErrorPrefix + e
  {
    var m := ErrorMatch(job, e);
    assert m.concerns[0] == m.concerns[0][..|ErrorPrefix|] + m.concerns[0][|ErrorPrefix|..];
  }

  /** The CSV file: the header, then one row per evaluation in ledger order. */
  function CsvTable(ledger: seq<JobMatch>): (table: seq<seq<string>>)
    ensures |table| == |ledger| + 1 && table[0] == CsvHeader
    ensures forall k :: 0 <= k < |table| ==> |table[k]| == |CsvHeader|
    ensures forall k :: 0 <= k < |ledger| ==> table[k + 1][0] == ledger[k].job.title
    ensures forall k :: 0 <= k < |ledger| ==> table[k + 1] == CsvRow(ledger[k])
  {
    [CsvHeader] + seq(|ledger|, k requires 0 <= k < |ledger| => CsvRow(ledger[k]))
  }

  // ---------------------------------------------------------------------
  // save_matching_results

  /** The profile part of the results document; reading the two
      undeclared attributes raises when they are absent. */
  function ProfileToJson(p: UserProfile): (r: Result<Json>)
    ensures r.Failure? <==> MissingAttribute(p).Some?
    ensures r.Failure? ==> r.error == MissingAttribute(p).value
  {
    match MissingAttribute(p)
    case Some(e) => Failure(e)
    case None =>
      Success(JObj(map[
        "スキル" := Strings(p.skills),
        "経験年数" := JInt(p.experienceYears.value),
        "希望カテゴリ" := Strings(p.preferredCategories),
        "希望する働き方" := Strings(p.preferredWorkType),
        "希望最低予算" := JInt(p.minBudget.value),
        "追加情報" := JStr(p.description)]))
  }

  /** Reads the profile part of the results document back. */
  function ProfileFromJson(j: Json): Option<UserProfile> {
    if && j.JObj?
       && "スキル" in j.fields && "経験年数" in j.fields && "希望カテゴリ" in j.fields
       && "希望する働き方" in j.fields && "希望最低予算" in j.fields && "追加情報" in j.fields
       && AsStrings(j.fields["スキル"]).Some? && AsStrings(j.fields["希望カテゴリ"]).Some?
       && AsStrings(j.fields["希望する働き方"]).Some?
       && j.fields["経験年数"].JInt? && j.fields["希望最低予算"].JInt? && j.fields["追加情報"].JStr?
    then Some(UserProfile(
      AsStrings(j.fields["スキル"]).value, AsStrings(j.fields["希望カテゴリ"]).value,
      AsStrings(j.fields["希望する働き方"]).value, j.fields["追加情報"].s,
      Some(j.fields["経験年数"].i), Some(j.fields["希望最低予算"].i)))
    else None
  }

  /** A profile that has both attributes the document reads is written
      and read back unchanged. */
  lemma ProfileJsonRoundTrip(p: UserProfile)
    requires MissingAttribute(p).None?
    ensures ProfileToJson(p).Success? && ProfileFromJson(ProfileToJson(p).value) == Some(p)
  {
    StringsRoundTrip(p.skills);
    StringsRoundTrip(p.preferredCategories);
    StringsRoundTrip(p.preferredWorkType);
    var m := ProfileToJson(p).value.fields;
    assert m["スキル"] == Strings(p.skills);
    assert m["希望カテゴリ"] == Strings(p.preferredCategories);
    assert m["希望する働き方"] == Strings(p.preferredWorkType);
    assert m["経験年数"] == JInt(p.experienceYears.value);
    assert m["希望最低予算"] == JInt(p.minBudget.value);
    assert m["追加情報"] == JStr(p.description);
  }

  function MatchToJson(m: JobMatch): Json
    requires WellFormedJob(m.job)
  {
    JObj(map[
      "案件情報" := JobToJson(m.job),
      "マッチング詳細" := JObj(map[
        "関連度スコア" := JFloat(m.score),
        "マッチする理由" := Strings(m.reasons),
        "注意点" := Strings(m.concerns)])])
  }

  /** Reads one entry of "マッチング結果" back. */
  function MatchFromJson(j: Json): Option<JobMatch> {
    if j.JObj? && "案件情報" in j.fields && "マッチング詳細" in j.fields then
      var d := j.fields["マッチング詳細"];
      if d.JObj? && "関連度スコア" in d.fields && "マッチする理由" in d.fields && "注意点" in d.fields
         && d.fields["関連度スコア"].JFloat?
         && JobFromJson(j.fields["案件情報"]).Some?
         && AsStrings(d.fields["マッチする理由"]).Some? && AsStrings(d.fields["注意点"]).Some?
      then Some(JobMatch(JobFromJson(j.fields["案件情報"]).value, d.fields["関連度スコア"].r,
                         AsStrings(d.fields["マッチする理由"]).value, AsStrings(d.fields["注意点"]).value))
      else None
    else None
  }

  lemma MatchJsonRoundTrip(m: JobMatch)
    requires WellFormedJob(m.job)
    ensures MatchFromJson(MatchToJson(m)) == Some(m)
  {
    JobJsonRoundTrip(m.job);
    StringsRoundTrip(m.reasons);
    StringsRoundTrip(m.concerns);
    var j := MatchToJson(m);
    assert j.fields["案件情報"] == JobToJson(m.job);
    var d := j.fields["マッチング詳細"];
    assert d.fields["関連度スコア"] == JFloat(m.score);
    assert d.fields["マッチする理由"] == Strings(m.reasons);
    assert d.fields["注意点"] == Strings(m.concerns);
  }

  /** The results document of `save_matching_results`; `timestamp` is the
      formatted clock reading. */
  function ResultsDocument(timestamp: string, matches: seq<JobMatch>, profile: UserProfile): (r: Result<Json>)
    requires forall k :: 0 <= k < |matches| ==> WellFormedJob(matches[k].job)
    ensures r.Failure? <==> MissingAttribute(profile).Some?
    ensures r.Success? ==> r.value.JObj? && "マッチング結果" in r.value.fields
    ensures r.Success? ==> "実行日時" in r.value.fields && r.value.fields["実行日時"] == JStr(timestamp)
    ensures r.Success? ==>
      "ユーザープロファイル" in r.value.fields && r.value.fields["ユーザープロファイル"] == ProfileToJson(profile).value
    ensures r.Failure? ==> r.error == MissingAttribute(profile).value
  {
    match ProfileToJson(profile)
    case Failure(e) => Failure(e)
    case Success(p) =>
      Success(JObj(map[
        "実行日時" := JStr(timestamp),
        "ユーザープロファイル" := p,
        "マッチング結果" := JArr(seq(|matches|, k requires 0 <= k < |matches| => MatchToJson(matches[k])))]))
  }

  /** Reads the "マッチング結果" list back, entry by entry. */
  function ReadMatches(doc: Json): Option<seq<JobMatch>> {
    if doc.JObj? && "マッチング結果" in doc.fields && doc.fields["マッチング結果"].JArr? then
      var items := doc.fields["マッチング結果"].items;
      if forall k :: 0 <= k < |items| ==> MatchFromJson(items[k]).Some? then
        Some(seq(|items|, k requires 0 <= k < |items| => MatchFromJson(items[k]).value))
      else None
    else None
  }

  /** The document lists the given matches, same count, same order, each
      with its posting, score, reasons and concerns. */
  lemma ResultsListMatches(timestamp: string, matches: seq<JobMatch>, profile: UserProfile)
    requires forall k :: 0 <= k < |matches| ==> WellFormedJob(matches[k].job)
    requires MissingAttribute(profile).None?
    ensures ResultsDocument(timestamp, matches, profile).Success?
    ensures ReadMatches(ResultsDocument(timestamp, matches, profile).value) == Some(matches)
  {
    var doc := ResultsDocument(timestamp, matches, profile).value;
    var items := doc.fields["マッチング結果"].items;
    assert |items| == |matches|;
    forall k | 0 <= k < |items|
      ensures MatchFromJson(items[k]) == Some(matches[k])
    {
      assert items[k] == MatchToJson(matches[k]);
      MatchJsonRoundTrip(matches[k]);
    }
    var back := seq(|items|, k requires 0 <= k < |items| => MatchFromJson(items[k]).value);
    assert back == matches;
  }
}
