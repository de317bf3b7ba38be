/** Posting extraction (`JobItem`, the per-container logic of
    `extract_jobs` and the field mapping of `save_jobs_to_json` in
    src/processors/job_extractor.py).  HTML parsing is not modelled: a
    container is given as the texts BeautifulSoup would deliver for it. */
module Extractor {
  import opened Wrappers
  import opened Text
  import opened Budgets
  import opened Dates
  import opened Json

  /** The marker that ends the client name in the title block. */
  const DateMarker: string := "掲載日："
  const UnknownClient: string := "不明"
  const PrMarker: string := "PR"
  /** The fixed category vocabulary, in the order it is tried. */
  const CategoryVocabulary: seq<string> :=
    ["AI・機械学習", "機械学習・ディープラーニング", "AI・チャットボット開発",
     "ChatGPT開発", "AIアノテーション", "データサイエンス"]
  /** A budget element is one whose text holds one of these. */
  const BudgetKeywords: seq<string> := ["円", "報酬"]
  const DeadlineKeyword: string := "まで"
  /** Container lines holding one of these are not part of the description. */
  const DescriptionExclusions: seq<string> := ["円", "まで", "掲載日："]

  /** One posting.  `postedDate` is `None` when the container has no date element. */
  datatype JobItem = JobItem(
    title: string,
    category: string,
    description: string,
    budget: Budget,
    deadline: Option<string>,
    postedDate: Option<Date>,
    clientName: string,
    url: Option<string>,
    isPr: bool)

  /** A posting container, as the texts of its elements:
      `titleText` is the title block (`None` when absent), `text` the whole
      container, `budgetTexts` the budget/deadline elements in document
      order, `dateText` the date element, `href` the first link target. */
  datatype Container = Container(
    titleText: Option<string>,
    text: string,
    budgetTexts: seq<string>,
    dateText: Option<string>,
    href: Option<string>)

  /** What one container yields: skipped for want of a title block, failed
      by an exception (caught and logged), or a posting. */
  datatype Outcome = Skipped | Failed(error: string) | Extracted(job: JobItem)

  /** Python's `any(kw in s for kw in keywords)`. */
  function AnyIn(s: string, keywords: seq<string>): (b: bool)
    ensures b <==> exists k :: 0 <= k < |keywords| && Contains(s, keywords[k])
  {
    if |keywords| == 0 then false
    else Contains(s, keywords[0]) || AnyIn(s, keywords[1..])
  }

  // ---------------------------------------------------------------------
  // Client name: `re.match(r'^(.+?)掲載日：', title_text)`

  /** The lazy group `(.+?)` can end at `k`: a non-empty prefix without a
      line break (`.` does not match `\n`) followed by the date marker. */
  predicate ClientPrefixAt(t: string, k: int) {
    1 <= k && OccursAt(t, DateMarker, k) && '\n' !in t[..k]
  }

  lemma NoClientPrefix(t: string, k: nat)
    requires OccursAt(t, DateMarker, k) && 1 <= k
    requires forall j :: 1 <= j < k ==> !OccursAt(t, DateMarker, j)
    requires '\n' in t[..k]
    ensures forall j :: !ClientPrefixAt(t, j)
  {
    forall j | 1 <= j && OccursAt(t, DateMarker, j)
      ensures '\n' in t[..j]
    {
      assert k <= j;
      var i :| 0 <= i < k && t[..k][i] == '\n';
      assert t[..j][i] == '\n';
    }
  }

  /** `client_match.group(1) if client_match else "不明"` on the stripped
      title text: the shortest line-break-free prefix before the marker. */
  function ClientName(titleText: string): (name: string)
    ensures var t := Strip(titleText);
      (forall k :: !ClientPrefixAt(t, k)) ==> name == UnknownClient
    ensures var t := Strip(titleText);
      forall k :: ClientPrefixAt(t, k) && (forall j :: 0 <= j < k ==> !ClientPrefixAt(t, j)) ==> name == t[..k]
  {
    var t := Strip(titleText);
    match IndexOfFrom(t, DateMarker, 1)
    case None => UnknownClient
    case Some(k) =>
      if '\n' in t[..k] then
        NoClientPrefix(t, k);
        UnknownClient
      else
        assert ClientPrefixAt(t, k);
        t[..k]
  }

  // ---------------------------------------------------------------------
  // Title and PR flag

  /** `job_text.split('\n')[0]`. */
  function FirstLine(s: string): (line: string)
    ensures '\n' !in line
    ensures |line| <= |s| && line == s[..|line|]
  {
    Split(s, '\n')[0]
  }

  /** The title: the first line of the stripped container text; for a PR
      posting, without its first two characters and stripped. */
  function Title(jobText: string): (title: string)
    ensures '\n' !in title
    ensures !StartsWith(jobText, PrMarker) ==> title == FirstLine(jobText)
    ensures StartsWith(jobText, PrMarker) ==> title == [] || (!IsSpace(title[0]) && !IsSpace(title[|title| - 1]))
  {
    var first := FirstLine(jobText);
    if StartsWith(jobText, PrMarker) then
      var rest := if |first| >= 2 then first[2..] else "";
      NotInSlice(first, '\n', if |first| >= 2 then 2 else |first|, |first|);
      NotInSlice(rest, '\n', |rest| - |LStrip(rest)|, |rest| - |LStrip(rest)| + |Strip(rest)|);
      Strip(rest)
    else first
  }

  /** The first line is everything before the first line break. */
  lemma FirstLineOf(line: string, tail: string)
    requires '\n' !in line
    ensures FirstLine(line + "\n" + tail) == line
  {
    SplitFirst(line, '\n', tail);
  }

  /** Text without a line break is its own first line. */
  lemma FirstLineWhole(line: string)
    requires '\n' !in line
    ensures FirstLine(line) == line
  {
    SplitJoin([line], '\n');
    assert Join([line], "\n") == line;
  }

  /** A PR posting whose first line is the marker, padding, a title and
      padding has exactly that title. */
  lemma PrTitle(lead: string, x: string, trail: string, tail: string)
    requires forall k :: 0 <= k < |lead| ==> IsSpace(lead[k])
    requires forall k :: 0 <= k < |trail| ==> IsSpace(trail[k])
    requires |x| > 0 && !IsSpace(x[0]) && !IsSpace(x[|x| - 1])
    requires '\n' !in lead + x + trail
    ensures Title(PrMarker + lead + x + trail + "\n" + tail) == x
  {
    var line := PrMarker + lead + x + trail;
    var s := line + "\n" + tail;
    assert PrMarker + lead + x + trail + "\n" + tail == s;
    PrLineUnbroken(lead, x, trail);
    FirstLineOf(line, tail);
    assert s[..|PrMarker|] == PrMarker;
    PrLineTitle(s, lead, x, trail);
  }

  /** The same for a PR posting that is a single line. */
  lemma PrTitleOneLine(lead: string, x: string, trail: string)
    requires forall k :: 0 <= k < |lead| ==> IsSpace(lead[k])
    requires forall k :: 0 <= k < |trail| ==> IsSpace(trail[k])
    requires |x| > 0 && !IsSpace(x[0]) && !IsSpace(x[|x| - 1])
    requires '\n' !in lead + x + trail
    ensures Title(PrMarker + lead + x + trail) == x
  {
    var line := PrMarker + lead + x + trail;
    PrLineUnbroken(lead, x, trail);
    FirstLineWhole(line);
    assert line[..|PrMarker|] == PrMarker;
    PrLineTitle(line, lead, x, trail);
  }

  lemma PrLineUnbroken(lead: string, x: string, trail: string)
    requires '\n' !in lead + x + trail
    ensures '\n' !in PrMarker + lead + x + trail
  {
    var line := PrMarker + lead + x + trail;
    assert line == PrMarker + (lead + x + trail);
    forall k | 0 <= k < |line|
      ensures line[k] != '\n'
    {
      if k >= 2 {
        assert line[k] == (lead + x + trail)[k - 2];
      }
    }
  }

  lemma PrLineTitle(s: string, lead: string, x: string, trail: string)
    requires forall k :: 0 <= k < |lead| ==> IsSpace(lead[k])
    requires forall k :: 0 <= k < |trail| ==> IsSpace(trail[k])
    requires |x| > 0 && !IsSpace(x[0]) && !IsSpace(x[|x| - 1])
    requires StartsWith(s, PrMarker) && FirstLine(s) == PrMarker + lead + x + trail
    ensures Title(s) == x
  {
    var line := PrMarker + lead + x + trail;
    assert line[2..] == lead + x + trail;
    StripPadded(lead, x, trail);
  }

  // ---------------------------------------------------------------------
  // Category

  /** Index of the first vocabulary entry occurring in `title`. */
  function FirstContained(vocabulary: seq<string>, title: string): (r: Option<nat>)
    ensures r.Some? ==> r.value < |vocabulary| && Contains(title, vocabulary[r.value])
    ensures r.Some? ==> forall j :: 0 <= j < r.value ==> !Contains(title, vocabulary[j])
    ensures r.None? ==> forall j :: 0 <= j < |vocabulary| ==> !Contains(title, vocabulary[j])
  {
    if |vocabulary| == 0 then None
    else if Contains(title, vocabulary[0]) then Some(0)
    else match FirstContained(vocabulary[1..], title)
      case None => None
      case Some(i) => Some(i + 1)
  }

  /** `next((cat for cat in categories if cat in title), '')`. */
  function Category(title: string): (category: string)
    ensures category == "" <==> forall j :: 0 <= j < |CategoryVocabulary| ==> !Contains(title, CategoryVocabulary[j])
    ensures category != "" ==>
      exists i :: (0 <= i < |CategoryVocabulary| && category == CategoryVocabulary[i]
        && Contains(title, category) && forall j :: 0 <= j < i ==> !Contains(title, CategoryVocabulary[j]))
  {
    match FirstContained(CategoryVocabulary, title)
    case None => ""
    case Some(i) => CategoryVocabulary[i]
  }

  // ---------------------------------------------------------------------
  // Budget and deadline elements

  predicate IsBudgetText(t: string) {
    AnyIn(t, BudgetKeywords)
  }

  predicate IsDeadlineText(t: string) {
    !IsBudgetText(t) && Contains(t, DeadlineKeyword)
  }

  /** `i` is the last index whose text satisfies `p`. */
  predicate LastWhere(ts: seq<string>, p: string -> bool, i: int) {
    && 0 <= i < |ts| && p(ts[i])
    && forall j :: i < j < |ts| ==> !p(ts[j])
  }

  lemma LastWhereTail(ts: seq<string>, p: string -> bool)
    requires |ts| > 0
    ensures forall i :: 1 <= i ==> (LastWhere(ts, p, i) <==> LastWhere(ts[1..], p, i - 1))
  {
    assert forall j :: 1 <= j < |ts| ==> ts[j] == ts[1..][j - 1];
  }

  lemma LastWhereHead(ts: seq<string>, p: string -> bool)
    requires |ts| > 0
    ensures LastWhere(ts, p, 0) <==> p(ts[0]) && forall i :: !LastWhere(ts[1..], p, i)
  {
    var rest := ts[1..];
    assert forall j :: 1 <= j < |ts| ==> ts[j] == rest[j - 1];
    if exists i :: LastWhere(rest, p, i) {
      var i :| LastWhere(rest, p, i);
      assert p(ts[i + 1]);
    }
    if p(ts[0]) && !LastWhere(ts, p, 0) {
      var j :| 0 < j < |ts| && p(ts[j]);
      LastWhereExists(rest, p, j - 1);
    }
  }

  /** Some text satisfies `p`, so a last one exists. */
  lemma {:induction false} LastWhereExists(ts: seq<string>, p: string -> bool, j: int)
    requires 0 <= j < |ts| && p(ts[j])
    ensures exists i :: LastWhere(ts, p, i)
    decreases |ts| - j
  {
    if !LastWhere(ts, p, j) {
      var k :| j < k < |ts| && p(ts[k]);
      LastWhereExists(ts, p, k);
    }
  }

  /** The loop over the stripped texts of the budget elements, left to
      right: a budget-looking text replaces the budget, otherwise a
      deadline-looking one replaces the deadline.  So the LAST budget text
      and the LAST deadline text win, and the starting values survive only
      when there is none. */
  function ScanElements(ts: seq<string>, budget: Option<Budget>, deadline: Option<string>)
    : (r: (Option<Budget>, Option<string>))
    ensures (forall i :: !LastWhere(ts, IsBudgetText, i)) ==> r.0 == budget
    ensures forall i :: LastWhere(ts, IsBudgetText, i) ==> r.0 == Some(ParseBudgetText(ts[i]))
    ensures (forall i :: !LastWhere(ts, IsDeadlineText, i)) ==> r.1 == deadline
    ensures forall i :: LastWhere(ts, IsDeadlineText, i) ==> r.1 == Some(ts[i])
  {
    LastWins(ts, budget, deadline, IsBudgetText, IsDeadlineText, ParseBudgetText)
  }

  /** The same loop with the tests and the parser as parameters.  The
      deadline test is only reached when the budget test fails (the
      `elif`), so the two tests are required to be disjoint, as
      `IsBudgetText` and `IsDeadlineText` are. */
  function LastWins<B>(ts: seq<string>, budget: Option<B>, deadline: Option<string>,
                       isBudget: string -> bool, isDeadline: string -> bool, parse: string -> B)
    : (r: (Option<B>, Option<string>))
    requires forall t :: isDeadline(t) ==> !isBudget(t)
    ensures (forall i :: !LastWhere(ts, isBudget, i)) ==> r.0 == budget
    ensures forall i :: LastWhere(ts, isBudget, i) ==> r.0 == Some(parse(ts[i]))
    ensures (forall i :: !LastWhere(ts, isDeadline, i)) ==> r.1 == deadline
    ensures forall i :: LastWhere(ts, isDeadline, i) ==> r.1 == Some(ts[i])
    decreases |ts|
  {
    if |ts| == 0 then (budget, deadline)
    else
      var t := ts[0];
      var rest := ts[1..];
      LastWhereHead(ts, isBudget);
      LastWhereHead(ts, isDeadline);
      LastWhereTail(ts, isBudget);
      LastWhereTail(ts, isDeadline);
      assert forall i :: LastWhere(rest, isBudget, i) ==> LastWhere(ts, isBudget, i + 1);
      assert forall i :: LastWhere(rest, isDeadline, i) ==> LastWhere(ts, isDeadline, i + 1);
      if isBudget(t) then LastWins(rest, Some(parse(t)), deadline, isBudget, isDeadline, parse)
      else if isDeadline(t) then LastWins(rest, budget, Some(t), isBudget, isDeadline, parse)
      else LastWins(rest, budget, deadline, isBudget, isDeadline, parse)
  }

  /** Each element's text, stripped (`element.get_text().strip()`). */
  function StrippedTexts(texts: seq<string>): (ts: seq<string>)
    ensures |ts| == |texts| && forall i :: 0 <= i < |texts| ==> ts[i] == Strip(texts[i])
  {
    seq(|texts|, i requires 0 <= i < |texts| => Strip(texts[i]))
  }

  // ---------------------------------------------------------------------
  // Description

  /** A container line kept in the description: not blank, and (checked on
      the unstripped line) holding none of the excluded markers. */
  predicate IsDescriptionLine(line: string) {
    Strip(line) != "" && !AnyIn(line, DescriptionExclusions)
  }

  /** `line` is the stripped form of one of the description lines of `lines`. */
  predicate KeptFrom(lines: seq<string>, line: string) {
    KeptBy(lines, IsDescriptionLine, Strip, line)
  }

  /** `line` is `f` of one of the lines of `lines` that `keep` accepts. */
  predicate KeptBy(lines: seq<string>, keep: string -> bool, f: string -> string, line: string) {
    exists j :: 0 <= j < |lines| && keep(lines[j]) && line == f(lines[j])
  }

  /** The stripped description lines, in order. */
  function DescriptionLines(lines: seq<string>): (r: seq<string>)
    ensures |r| <= |lines|
    ensures forall k :: 0 <= k < |r| ==> KeptFrom(lines, r[k])
  {
    FilterMap(lines, IsDescriptionLine, Strip)
  }

  /** `[f(x) for x in lines if keep(x)]`. */
  function FilterMap(lines: seq<string>, keep: string -> bool, f: string -> string): (r: seq<string>)
    ensures |r| <= |lines|
    ensures forall k :: 0 <= k < |r| ==> KeptBy(lines, keep, f, r[k])
  {
    if |lines| == 0 then []
    else
      var rest := FilterMap(lines[1..], keep, f);
      KeptByTail(lines, keep, f, rest);
      if keep(lines[0]) then [f(lines[0])] + rest else rest
  }

  lemma KeptByTail(lines: seq<string>, keep: string -> bool, f: string -> string, rest: seq<string>)
    requires |lines| > 0
    requires forall k :: 0 <= k < |rest| ==> KeptBy(lines[1..], keep, f, rest[k])
    ensures forall k :: 0 <= k < |rest| ==> KeptBy(lines, keep, f, rest[k])
  {
    forall k | 0 <= k < |rest|
      ensures KeptBy(lines, keep, f, rest[k])
    {
      var tail := lines[1..];
      assert KeptBy(tail, keep, f, rest[k]);
      var j :| 0 <= j < |tail| && keep(tail[j]) && rest[k] == f(tail[j]);
      assert lines[j + 1] == tail[j];
    }
  }

  /** Every description line of the container makes it into the description. */
  lemma DescriptionLinesComplete(lines: seq<string>, j: int)
    requires 0 <= j < |lines| && IsDescriptionLine(lines[j])
    ensures Strip(lines[j]) in DescriptionLines(lines)
  {
    FilterMapComplete(lines, IsDescriptionLine, Strip, j);
  }

  lemma {:induction false} FilterMapComplete(lines: seq<string>, keep: string -> bool, f: string -> string, j: int)
    requires 0 <= j < |lines| && keep(lines[j])
    ensures f(lines[j]) in FilterMap(lines, keep, f)
  {
    if j > 0 {
      assert lines[j] == lines[1..][j - 1];
      FilterMapComplete(lines[1..], keep, f, j - 1);
    }
  }

  /** A kept description line is non-empty, has no surrounding whitespace and
      holds none of the excluded markers. */
  lemma DescriptionLineShape(line: string)
    requires IsDescriptionLine(line)
    ensures var s := Strip(line); s != [] && !IsSpace(s[0]) && !IsSpace(s[|s| - 1])
    ensures forall k :: 0 <= k < |DescriptionExclusions| ==> !Contains(Strip(line), DescriptionExclusions[k])
  {
    forall k | 0 <= k < |DescriptionExclusions|
      ensures !Contains(Strip(line), DescriptionExclusions[k])
    {
      ContainsStrip(line, DescriptionExclusions[k]);
    }
  }

  // ---------------------------------------------------------------------
  // One container

  /** The posted date: absent without a date element, else parsed (a parse
      error is an exception that abandons the container). */
  function PostedDate(dateText: Option<string>): (r: Result<Option<Date>>)
    ensures r.Success? && r.value.Some? ==> ValidDate(r.value.value)
    ensures r.Failure? <==> dateText.Some? && ParseDateText(dateText.value).Failure?
  {
    match dateText
    case None => Success(None)
    case Some(t) =>
      match ParseDateText(t)
      case Failure(e) => Failure(e)
      case Success(d) => Success(Some(d))
  }

  /** A record `save_jobs_to_json` can write and the reader can rebuild. */
  predicate WellFormedJob(job: JobItem) {
    && job.budget.Valid()
    && (job.postedDate.Some? ==> ValidDate(job.postedDate.value))
  }

  /** The body of the `try` in the loop of `extract_jobs`, for one container. */
  function ExtractFromContainer(c: Container): (o: Outcome)
    ensures o.Skipped? <==> c.titleText.None?
    ensures o.Failed? <==> c.titleText.Some? && PostedDate(c.dateText).Failure?
    ensures o.Extracted? ==> WellFormedJob(o.job)
    ensures o.Extracted? ==> (o.job.isPr <==> StartsWith(Strip(c.text), PrMarker))
    ensures o.Extracted? ==> o.job.clientName == ClientName(c.titleText.value)
    ensures o.Extracted? ==> o.job.url == c.href
    ensures o.Extracted? ==> o.job.title == Title(Strip(c.text)) && '\n' !in o.job.title
    ensures o.Extracted? ==> o.job.category == Category(o.job.title)
    ensures o.Extracted? ==> o.job.description == Join(DescriptionLines(Split(Strip(c.text), '\n')[1..]), "\n")
    ensures o.Extracted? ==> PostedDate(c.dateText) == Success(o.job.postedDate)
    ensures o.Extracted? ==> var scanned := ScanElements(StrippedTexts(c.budgetTexts), None, None);
      o.job.budget == scanned.0.GetOr(DefaultBudget) && o.job.deadline == scanned.1
    ensures o.Extracted? && (forall i :: !LastWhere(StrippedTexts(c.budgetTexts), IsBudgetText, i))
      ==> o.job.budget == DefaultBudget
    ensures o.Extracted? ==>
      forall i :: LastWhere(StrippedTexts(c.budgetTexts), IsBudgetText, i) ==> o.job.budget == ParseBudgetText(StrippedTexts(c.budgetTexts)[i])
  {
    match c.titleText
    case None => Skipped
    case Some(titleText) =>
      var clientName := ClientName(titleText);
      var jobText := Strip(c.text);
      var isPr := StartsWith(jobText, PrMarker);
      var title := Title(jobText);
      var category := Category(title);
      var (budget, deadline) := ScanElements(StrippedTexts(c.budgetTexts), None, None);
      match PostedDate(c.dateText)
      case Failure(e) => Failed(e)
      case Success(postedDate) =>
        var lines := Split(jobText, '\n');
        var description := Join(DescriptionLines(lines[1..]), "\n");
        Extracted(JobItem(title, category, description, budget.GetOr(DefaultBudget), deadline,
                          postedDate, clientName, c.href, isPr))
  }

  /** `job` is what one of `containers` yields under `extract`. */
  predicate ProducedBy(containers: seq<Container>, extract: Container -> Outcome, job: JobItem) {
    exists i :: 0 <= i < |containers| && extract(containers[i]) == Extracted(job)
  }

  /** The loop of `extract_jobs` for a given per-container step: every
      container is tried on its own, skipped and failed ones contribute
      nothing, the others their posting, in document order. */
  function CollectJobs(containers: seq<Container>, extract: Container -> Outcome): (jobs: seq<JobItem>)
    ensures |jobs| <= |containers|
    ensures forall k :: 0 <= k < |jobs| ==> ProducedBy(containers, extract, jobs[k])
  {
    if |containers| == 0 then []
    else
      var rest := CollectJobs(containers[1..], extract);
      ProducedByTail(containers, extract, rest);
      match extract(containers[0])
      case Extracted(job) =>
        assert ProducedBy(containers, extract, job);
        [job] + rest
      case _ => rest
  }

  lemma ProducedByTail(containers: seq<Container>, extract: Container -> Outcome, rest: seq<JobItem>)
    requires |containers| > 0
    requires forall k :: 0 <= k < |rest| ==> ProducedBy(containers[1..], extract, rest[k])
    ensures forall k :: 0 <= k < |rest| ==> ProducedBy(containers, extract, rest[k])
  {
    forall k | 0 <= k < |rest|
      ensures ProducedBy(containers, extract, rest[k])
    {
      var i :| 0 <= i < |containers[1..]| && extract(containers[1..][i]) == Extracted(rest[k]);
      assert containers[i + 1] == containers[1..][i];
    }
  }

  /** The loop works container by container: the postings of a document
      are those of its first part followed by those of the rest. */
  lemma {:induction false} CollectJobsAppend(a: seq<Container>, b: seq<Container>, extract: Container -> Outcome)
    ensures CollectJobs(a + b, extract) == CollectJobs(a, extract) + CollectJobs(b, extract)
  {
    if |a| == 0 {
      assert a + b == b;
    } else {
      assert (a + b)[1..] == a[1..] + b;
      assert (a + b)[0] == a[0];
      CollectJobsAppend(a[1..], b, extract);
    }
  }

  /** `extract_jobs`. */
  function ExtractJobs(containers: seq<Container>): (jobs: seq<JobItem>)
    ensures |jobs| <= |containers|
    ensures forall k :: 0 <= k < |jobs| ==> ProducedBy(containers, ExtractFromContainer, jobs[k])
    ensures forall k :: 0 <= k < |jobs| ==> WellFormedJob(jobs[k])
  {
    var jobs := CollectJobs(containers, ExtractFromContainer);
    assert forall k :: 0 <= k < |jobs| ==> WellFormedJob(jobs[k]) by {
      forall k | 0 <= k < |jobs|
        ensures WellFormedJob(jobs[k])
      {
        var i :| 0 <= i < |containers| && ExtractFromContainer(containers[i]) == Extracted(jobs[k]);
      }
    }
    jobs
  }

  /** A container whose parsing raises is skipped alone: the postings
      before and after it are all still returned, in order. */
  lemma FailureIsIsolated(before: seq<Container>, bad: Container, after: seq<Container>)
    requires ExtractFromContainer(bad).Failed?
    ensures ExtractJobs(before + [bad] + after) == ExtractJobs(before) + ExtractJobs(after)
  {
    CollectSkipsFailure(before, bad, after, ExtractFromContainer);
  }

  lemma CollectSkipsFailure(before: seq<Container>, bad: Container, after: seq<Container>, extract: Container -> Outcome)
    requires !extract(bad).Extracted?
    ensures CollectJobs(before + [bad] + after, extract) == CollectJobs(before, extract) + CollectJobs(after, extract)
  {
    CollectJobsAppend(before + [bad], after, extract);
    CollectJobsAppend(before, [bad], extract);
    CollectFailure(bad, extract);
    assert CollectJobs(before, extract) + [] == CollectJobs(before, extract);
  }

  lemma CollectFailure(bad: Container, extract: Container -> Outcome)
    requires !extract(bad).Extracted?
    ensures CollectJobs([bad], extract) == []
  {
    assert [bad][1..] == [];
  }

  /** A container that extracts contributes exactly its posting. */
  lemma CollectKeeps(c: Container, extract: Container -> Outcome)
    requires extract(c).Extracted?
    ensures CollectJobs([c], extract) == [extract(c).job]
  {
    assert [c][1..] == [];
  }

  /** A container that extracts puts its posting between those of the
      containers before and after it. */
  lemma CollectAround(before: seq<Container>, c: Container, after: seq<Container>, extract: Container -> Outcome)
    requires extract(c).Extracted?
    ensures CollectJobs(before + [c] + after, extract)
      == CollectJobs(before, extract) + [extract(c).job] + CollectJobs(after, extract)
  {
    CollectJobsAppend(before + [c], after, extract);
    CollectJobsAppend(before, [c], extract);
    CollectKeeps(c, extract);
  }

  /** Completeness: every container that extracts has its posting among
      those collected. */
  lemma CollectComplete(containers: seq<Container>, i: nat, extract: Container -> Outcome)
    requires i < |containers| && extract(containers[i]).Extracted?
    ensures extract(containers[i]).job in CollectJobs(containers, extract)
  {
    var c, before, after := containers[i], containers[..i], containers[i + 1..];
    assert containers == before + [c] + after;
    CollectAround(before, c, after, extract);
    var xs, job, ys := CollectJobs(before, extract), extract(c).job, CollectJobs(after, extract);
    assert CollectJobs(containers, extract) == xs + [job] + ys;
    assert (xs + [job] + ys)[|xs|] == job;
  }

  /** A container that parses is kept, with its posting between those of
      the containers before and after it. */
  lemma SuccessIsKept(before: seq<Container>, c: Container, after: seq<Container>, job: JobItem)
    requires ExtractFromContainer(c) == Extracted(job)
    ensures ExtractJobs(before + [c] + after) == ExtractJobs(before) + [job] + ExtractJobs(after)
  {
    CollectAround(before, c, after, ExtractFromContainer);
  }

  // ---------------------------------------------------------------------
  // save_jobs_to_json

  function BudgetToJson(b: Budget): Json {
    JObj(map[
      "type" := JStr(b.kind),
      "min_amount" := OptInt(b.minAmount),
      "max_amount" := OptInt(b.maxAmount),
      "is_negotiable" := JBool(b.isNegotiable)])
  }

  /** The dictionary `save_jobs_to_json` writes for one posting. */
  function JobToJson(job: JobItem): Json
    requires WellFormedJob(job)
  {
    JObj(map[
      "title" := JStr(job.title),
      "category" := JStr(job.category),
      "description" := JStr(job.description),
      "budget" := BudgetToJson(job.budget),
      "deadline" := OptString(job.deadline),
      "posted_date" := (match job.postedDate case Some(d) => JStr(IsoFormat(d)) case None => JNull),
      "client_name" := JStr(job.clientName),
      "url" := OptString(job.url),
      "is_pr" := JBool(job.isPr)])
  }

  /** The extracted-jobs document: the postings, in order. */
  function SaveJobs(jobs: seq<JobItem>): (doc: Json)
    requires forall k :: 0 <= k < |jobs| ==> WellFormedJob(jobs[k])
    ensures doc.JArr? && |doc.items| == |jobs|
    ensures forall k :: 0 <= k < |jobs| ==> doc.items[k] == JobToJson(jobs[k])
  {
    JArr(seq(|jobs|, k requires 0 <= k < |jobs| => JobToJson(jobs[k])))
  }

  /** Reads an extracted-jobs document back, posting by posting. */
  function JobsFromJson(doc: Json): Option<seq<JobItem>> {
    if doc.JArr? then ReadJobs(doc.items) else None
  }

  function ReadJobs(items: seq<Json>): Option<seq<JobItem>> {
    if |items| == 0 then Some([])
    else
      match (JobFromJson(items[0]), ReadJobs(items[1..]))
      case (Some(j), Some(js)) => Some([j] + js)
      case _ => None
  }

  /** The document written for a list of postings reads back to that list. */
  lemma SaveJobsRoundTrip(jobs: seq<JobItem>)
    requires forall k :: 0 <= k < |jobs| ==> WellFormedJob(jobs[k])
    ensures JobsFromJson(SaveJobs(jobs)) == Some(jobs)
  {
    ReadJobsBack(jobs, SaveJobs(jobs).items);
  }

  lemma {:induction false} ReadJobsBack(jobs: seq<JobItem>, items: seq<Json>)
    requires forall k :: 0 <= k < |jobs| ==> WellFormedJob(jobs[k])
    requires |items| == |jobs| && forall k :: 0 <= k < |jobs| ==> items[k] == JobToJson(jobs[k])
    ensures ReadJobs(items) == Some(jobs)
    decreases |jobs|
  {
    if |jobs| > 0 {
      JobJsonRoundTrip(jobs[0]);
      ReadJobsBack(jobs[1..], items[1..]);
      assert [jobs[0]] + jobs[1..] == jobs;
    }
  }

  function BudgetFromJson(j: Json): Option<Budget> {
    if j.JObj? && "type" in j.fields && "min_amount" in j.fields && "max_amount" in j.fields
       && "is_negotiable" in j.fields
       && j.fields["type"].JStr? && j.fields["is_negotiable"].JBool?
       && AsOptNat(j.fields["min_amount"]).Some? && AsOptNat(j.fields["max_amount"]).Some?
    then Some(Budget(j.fields["type"].s, AsOptNat(j.fields["min_amount"]).value,
                     AsOptNat(j.fields["max_amount"]).value, j.fields["is_negotiable"].b))
    else None
  }

  function AsOptDate(j: Json): Option<Option<Date>> {
    match j
    case JNull => Some(None)
    case JStr(s) => (match ParseIso(s) case Some(d) => Some(Some(d)) case None => None)
    case _ => None
  }

  /** Rebuilds a posting from the dictionary `JobToJson` writes. */
  function JobFromJson(j: Json): Option<JobItem> {
    if && j.JObj?
       && "title" in j.fields && "category" in j.fields && "description" in j.fields
       && "budget" in j.fields && "deadline" in j.fields && "posted_date" in j.fields
       && "client_name" in j.fields && "url" in j.fields && "is_pr" in j.fields
       && j.fields["title"].JStr? && j.fields["category"].JStr? && j.fields["description"].JStr?
       && j.fields["client_name"].JStr? && j.fields["is_pr"].JBool?
       && BudgetFromJson(j.fields["budget"]).Some?
       && AsOptString(j.fields["deadline"]).Some?
       && AsOptDate(j.fields["posted_date"]).Some?
       && AsOptString(j.fields["url"]).Some?
    then Some(JobItem(
      j.fields["title"].s, j.fields["category"].s, j.fields["description"].s,
      BudgetFromJson(j.fields["budget"]).value, AsOptString(j.fields["deadline"]).value,
      AsOptDate(j.fields["posted_date"]).value, j.fields["client_name"].s,
      AsOptString(j.fields["url"]).value, j.fields["is_pr"].b))
    else None
  }

  lemma BudgetJsonRoundTrip(b: Budget)
    ensures BudgetFromJson(BudgetToJson(b)) == Some(b)
  {
    var m := BudgetToJson(b).fields;
    assert m["type"] == JStr(b.kind);
    assert m["min_amount"] == OptInt(b.minAmount);
    assert m["max_amount"] == OptInt(b.maxAmount);
    assert m["is_negotiable"] == JBool(b.isNegotiable);
  }

  lemma JobJsonKeys(job: JobItem)
    requires WellFormedJob(job)
    ensures var m := JobToJson(job).fields;
      && "title" in m && "category" in m && "description" in m && "budget" in m && "deadline" in m
      && "posted_date" in m && "client_name" in m && "url" in m && "is_pr" in m
  {
  }

  lemma JobJsonValues(job: JobItem)
    requires WellFormedJob(job)
    ensures var m := JobToJson(job).fields;
      && m["title"] == JStr(job.title) && m["category"] == JStr(job.category)
      && m["description"] == JStr(job.description) && m["budget"] == BudgetToJson(job.budget)
      && m["deadline"] == OptString(job.deadline) && m["client_name"] == JStr(job.clientName)
      && m["url"] == OptString(job.url) && m["is_pr"] == JBool(job.isPr)
      && m["posted_date"] == (match job.postedDate case Some(d) => JStr(IsoFormat(d)) case None => JNull)
  {
  }

  /** The parts of the written dictionary read back as the posting's fields. */
  lemma JobJsonParts(job: JobItem)
    requires WellFormedJob(job)
    ensures && BudgetFromJson(BudgetToJson(job.budget)) == Some(job.budget)
      && AsOptString(OptString(job.deadline)) == Some(job.deadline)
      && AsOptDate(match job.postedDate case Some(d) => JStr(IsoFormat(d)) case None => JNull) == Some(job.postedDate)
      && AsOptString(OptString(job.url)) == Some(job.url)
  {
    BudgetJsonRoundTrip(job.budget);
    PostedDateJson(job.postedDate);
  }

  /** The posting date reads back from what the dictionary holds for it. */
  lemma PostedDateJson(d: Option<Date>)
    requires d.Some? ==> ValidDate(d.value)
    ensures AsOptDate(match d case Some(x) => JStr(IsoFormat(x)) case None => JNull) == Some(d)
  {
    if d.Some? {
      IsoRoundTrip(d.value);
    }
  }

  /** Writing a posting and reading it back gives the same posting. */
  lemma JobJsonRoundTrip(job: JobItem)
    requires WellFormedJob(job)
    ensures JobFromJson(JobToJson(job)) == Some(job)
  {
    JobJsonKeys(job);
    JobJsonValues(job);
    JobJsonParts(job);
  }
}
