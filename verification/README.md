# LLMJobScraper core, modelled in Dafny

LLMJobScraper collects freelance job postings from a listing site. It asks
a language model how well each posting suits a user profile, and reports
the best matches. This project models the deterministic core of that
pipeline and proves properties of it:

- **Extraction** (`Extractor`, `Budgets`, `Dates`). This covers
  `src/processors/job_extractor.py`:
  - how one posting card's texts become a `JobItem`: client name, PR
    flag, title, category, budget, deadline, posted date, description
    and URL;
  - the budget parser with its `\d{1,3}(?:,\d{3})*` amount scanner;
  - the `YYYY年MM月DD日` date parser;
  - the per-card `try`/`except` loop;
  - the dictionary `save_jobs_to_json` writes, which is read back by
    `JobFromJson`.
- **Filtering** (`Filters`). This covers `src/filters/job_filters.py`: the
  fixed-price filter and the first-excluder loop of `apply_filters`.
- **Matching** (`Matches`, `Matcher`). This covers
  `src/processors/job_matcher.py`:
  - one evaluation around the model call, including its error path;
  - the threshold, the stable descending sort and the `max_jobs` cut
    of `find_matching_jobs`;
  - the CSV ledger row, with Python's `{:.1f}` formatting and its read-back;
  - the results document.
- **Category selection** (`Categories`). This covers
  `src/utils/category_selector.py`:
  - cutting the `{…}` block out of the model's reply;
  - the two-level catalogue lookup, with main categories before their
    subcategories;
  - turning proposals into `SelectedCategory` values;
  - the fallback used whenever anything raises.
- **Server helpers** (`ConfigRewrite`, `Progress`). These cover
  `simple_server.py`:
  - `update_config_section`, which finds the `NAME = {` … `}` block by a
    line scan and splices in a regenerated block;
  - the progress bookkeeping of `run_main_py`, which reads the `進捗:`
    marker, `%`, and Python's `int()`.

Shared pieces:

- `Text` holds Python's string operations as the source uses them:
  `strip`, `find`, `rfind`, `in`, `startswith`, `split`, `join`, and `str`
  of integers.
- `Json` is the JSON value shape.
- `Wrappers` holds `Option` and `Result`.
- `Profiles` holds the user profile.

The model follows the code as written:

- Scores are not clamped to 0–100.
- Evaluations are not batched.
- `find_matching_jobs` does not call `apply_filters`.
- `max_categories` only appears in the prompt and is not enforced.
- A negative `max_jobs` follows Python's slice semantics.

Language-model calls, `json.loads` of model output and `float()` of
strings are parameters of the model (`Oracle`, `decode`, `floatOfString`).
Every proof holds for all of them.

## Model

| member | source | states |
|---|---|---|
| Text.Strip | src/processors/job_extractor.py:39 | the result is a contiguous slice of the input, everything cut off on either side is whitespace, and the result neither starts nor ends with whitespace |
| Text.StripIsBoth | src/processors/job_extractor.py:39 | stripping both ends is stripping the left end and then the right end |
| Text.StripPadded | src/processors/job_extractor.py:92 | a text with non-space ends, padded with whitespace, strips back to exactly that text |
| Text.Contains | src/processors/job_extractor.py:42 | `pat in s` holds exactly when `pat` occurs at some index of `s` |
| Text.ContainsStrip | src/processors/job_extractor.py:39-50 | a keyword with non-space ends is found in the stripped text exactly when it is found in the original |
| Text.IndexOfChar | src/utils/category_selector.py:134 | `find` gives the first index holding the character, or none when it does not occur |
| Text.LastIndexOfChar | src/utils/category_selector.py:135 | `rfind` gives the last index holding the character, or none when it does not occur |
| Text.Split | simple_server.py:895 | the pieces contain no separator and joining them with the separator gives back the text |
| Text.SplitJoin | simple_server.py:919-920 | splitting the join of separator-free pieces gives back the same pieces |
| Text.NatToString | src/processors/job_matcher.py:211 | decimal rendering: digits only, no leading zero, and the digits denote the number |
| Budgets.LeadLen | src/processors/job_extractor.py:53 | the greedy `\d{1,3}` takes one to three digits, and fewer than three only when no digit follows |
| Budgets.MatchIsGrouped | src/processors/job_extractor.py:53-54 | the text one greedy match takes is a grouped number |
| Budgets.TokensAreGrouped | src/processors/job_extractor.py:53-54 | every token `findall` returns is a grouped number (one to three digits, then `,ddd` groups) |
| Budgets.NoTokensIffNoDigits | src/processors/job_extractor.py:53-54 | `findall` finds nothing exactly when the text has no digit |
| Budgets.TokensCut | src/processors/job_extractor.py:53-54 | a character that is neither a digit nor a comma splits the scan: the tokens of the whole are the tokens before it followed by the tokens after it |
| Budgets.TokensSkipFrom | src/processors/job_extractor.py:53-54 | digit-free text in front of a string adds no token |
| Budgets.TwoAmounts | src/processors/job_extractor.py:53-57 | two comma-grouped amounts separated and followed by digit-free text starting with a non-digit, non-comma character are found as exactly those two amounts, in order |
| Budgets.RangeExample | src/processors/job_extractor.py:53-57 | `10,000円〜50,000円` gives the amounts 10000 and 50000 |
| Budgets.UngroupedRunSplits | src/processors/job_extractor.py:53-54 | an ungrouped run of four digits is found as two amounts, 123 and 4 |
| Budgets.RemoveCommas | src/processors/job_extractor.py:57 | `replace(',', '')` leaves no comma and never lengthens the token |
| Budgets.RemoveCommasDigits | src/processors/job_extractor.py:57 | a grouped number without its commas is all digits, so `int()` accepts it |
| Budgets.GroupedDigitsValue | src/processors/job_extractor.py:57 | an amount written with thousands separators reads back, without its commas, as the same number |
| Budgets.AmountsOfFormatGrouped | src/processors/job_extractor.py:53-57 | the scanner finds a comma-grouped amount as exactly one amount of the same value |
| Budgets.BudgetKind | src/processors/job_extractor.py:45-50 | fixed price when the text contains 固定報酬制; otherwise hourly when it contains 時間単価制; otherwise その他 |
| Budgets.FormalKeywordContainsShort | src/processors/job_extractor.py:42 | the `"応相談" in text` test is subsumed by `"相談" in text` |
| Budgets.KeywordsSurviveStrip | src/processors/job_extractor.py:39-50 | the keyword tests give the same answers on the stripped and the original text |
| Budgets.SeqMin | src/processors/job_extractor.py:64 | `min` is a member of the amounts and at most each of them |
| Budgets.SeqMax | src/processors/job_extractor.py:64 | `max` is a member of the amounts and at least each of them |
| Budgets.AmountRange | src/processors/job_extractor.py:59-64 | both bounds are absent exactly when there are no amounts; otherwise both are amounts and every amount lies between them |
| Budgets.ParseBudgetText | src/processors/job_extractor.py:37-64 | negotiable iff the text contains 相談; the type as above; the min/max amounts are present iff the stripped text holds an amount, and then they are the least and greatest amounts found, so min <= max |
| Dates.FindPattern | src/processors/job_extractor.py:68-69 | `re.search` finds the leftmost index where the `YYYY年MM月DD日` pattern matches, or reports that none matches |
| Dates.DaysInMonth | src/processors/job_extractor.py:72 | a month has between 28 and 31 days, as `datetime` checks them |
| Dates.CalendarCheck | src/processors/job_extractor.py:72 | `datetime(y, m, d)` raises exactly when the date is not a valid calendar date |
| Dates.ParseDateText | src/processors/job_extractor.py:66-73 | success iff the leftmost pattern match is a valid date, and then the result is that date; with no match the error is `Invalid date format: <text>` |
| Dates.ParseJapaneseDate | src/processors/job_extractor.py:66-73 | every valid date written as `YYYY年MM月DD日` parses back to itself |
| Dates.IsoRoundTrip | src/processors/job_extractor.py:175 | `isoformat()` of a posting date reads back to the same date |
| Json.StringsRoundTrip | src/processors/job_extractor.py:163-181 | a list of strings written as JSON reads back unchanged |
| Extractor.AnyIn | src/processors/job_extractor.py:121 | `any(k in t for k in keywords)` holds iff some keyword occurs in the text |
| Extractor.ClientName | src/processors/job_extractor.py:92-94 | the client is the text before the first 掲載日： that has a non-empty, line-break-free prefix; with no such prefix it is 不明 |
| Extractor.FirstLine | src/processors/job_extractor.py:103 | `split('\n')[0]` is a line-break-free prefix of the text |
| Extractor.FirstLineOf | src/processors/job_extractor.py:103 | the first line of `line + "\n" + rest` is `line` |
| Extractor.Title | src/processors/job_extractor.py:100-105 | a non-PR title is the first line; a PR title has no line break and no surrounding whitespace |
| Extractor.PrTitle | src/processors/job_extractor.py:100-105 | for `PR` + padding + x + padding on the first line, the title is exactly x |
| Extractor.PrTitleOneLine | src/processors/job_extractor.py:100-105 | the same for a card text that is the single line `PR` + padding + x + padding |
| Extractor.FirstLineWhole | src/processors/job_extractor.py:103 | a text without a line break is its own first line |
| Extractor.FirstContained | src/processors/job_extractor.py:112 | `next(...)` picks the first vocabulary entry contained in the title, or none when no entry is contained |
| Extractor.Category | src/processors/job_extractor.py:108-112 | the category is empty iff no vocabulary entry occurs in the title; otherwise it is the first entry, in list order, that occurs |
| Extractor.StrippedTexts | src/processors/job_extractor.py:120 | each budget element's text is stripped, in order |
| Extractor.LastWins | src/processors/job_extractor.py:119-124 | with two disjoint tests (the `elif`), each slot holds the last element passing its test, or keeps its initial value when none passes |
| Extractor.ScanElements | src/processors/job_extractor.py:115-124 | the budget is the parse of the last element mentioning 円 or 報酬; the deadline is the last other element containing まで |
| Extractor.DescriptionLines | src/processors/job_extractor.py:131-133 | every description line is the stripped form of a non-blank source line free of 円, まで and 掲載日： |
| Extractor.FilterMap | src/processors/job_extractor.py:131-132 | the comprehension keeps only transformed lines that pass the filter, and never lengthens the list |
| Extractor.DescriptionLinesComplete | src/processors/job_extractor.py:131-132 | conversely, every qualifying source line appears stripped in the description |
| Extractor.FilterMapComplete | src/processors/job_extractor.py:131-132 | every line the filter accepts appears, transformed, in the result |
| Extractor.DescriptionLineShape | src/processors/job_extractor.py:131-132 | a kept line is non-empty, has non-space ends, and contains none of the excluded keywords |
| Extractor.PostedDate | src/processors/job_extractor.py:127-128 | no date element gives no date; otherwise the result is the parsed date, and the step raises exactly when that parse fails |
| Extractor.ExtractFromContainer | src/processors/job_extractor.py:86-149 | a card is skipped iff it has no title div and fails iff its date does not parse; otherwise the posting has a PR flag iff the card text starts with PR, the parsed client, the card's link, the title of the stripped card text (one line), the category of that title, the description built from the lines after the first, the parsed posting date, the budget of the last budget element (the default budget when there is none) and the deadline of the last other element containing まで |
| Extractor.CollectJobs | src/processors/job_extractor.py:84-156 | every collected posting was produced by some card, and there are no more postings than cards |
| Extractor.CollectJobsAppend | src/processors/job_extractor.py:84-156 | collecting from two runs of cards is collecting from each and concatenating, so document order is kept |
| Extractor.ExtractJobs | src/processors/job_extractor.py:75-156 | every extracted posting comes from a card and is well formed |
| Extractor.FailureIsIsolated | src/processors/job_extractor.py:152-154 | a card that raises drops only itself: the cards before and after it are extracted as if it were absent |
| Extractor.CollectSkipsFailure | src/processors/job_extractor.py:152-154 | for any per-card step, a failing card between two runs contributes nothing |
| Extractor.CollectFailure | src/processors/job_extractor.py:152-154 | a single failing card yields no posting |
| Extractor.CollectKeeps | src/processors/job_extractor.py:84-156 | a single card whose step succeeds yields exactly its posting |
| Extractor.CollectAround | src/processors/job_extractor.py:84-156 | a succeeding card between two runs contributes its posting at its own place |
| Extractor.CollectComplete | src/processors/job_extractor.py:84-156 | the posting of every succeeding card is among the collected postings |
| Extractor.SuccessIsKept | src/processors/job_extractor.py:84-156 | a card that extracts to a posting is kept: the result is the postings of the cards before it, that posting, then those of the cards after it |
| Extractor.SaveJobs | src/processors/job_extractor.py:163-181 | one dictionary per posting, in order: the k-th item is the dictionary of the k-th posting |
| Extractor.SaveJobsRoundTrip | src/processors/job_extractor.py:163-181 | the saved list reads back, item by item, to the same postings |
| Extractor.BudgetJsonRoundTrip | src/processors/job_extractor.py:168-173 | the budget dictionary reads back to the same budget |
| Extractor.JobJsonKeys | src/processors/job_extractor.py:163-181 | the posting dictionary has all nine keys |
| Extractor.JobJsonValues | src/processors/job_extractor.py:163-181 | each key holds the posting's field, the date in ISO form or null |
| Extractor.PostedDateJson | src/processors/job_extractor.py:175 | the optional posted date, written as an ISO string or null, reads back |
| Extractor.JobJsonRoundTrip | src/processors/job_extractor.py:163-181 | the dictionary written for a posting reads back to the same posting |
| Profiles.DeclaredProfile | src/models/user_profile.py:4-10 | the repository's profile has skills, categories, work types and description, and no experience years or minimum budget |
| Filters.FilterFixedPrice | src/filters/job_filters.py:7-20 | excludes iff the budget type is not 固定報酬制, with the fixed reason; otherwise passes with an empty reason |
| Filters.RunFilters | src/filters/job_filters.py:40-47 | excludes iff some filter excludes, and then with the verdict of the first one that does; otherwise passes |
| Filters.LaterFiltersNotConsulted | src/filters/job_filters.py:40-44 | once a filter excludes, the filters after it do not change the verdict |
| Filters.ApplyFilters | src/filters/job_filters.py:22-47 | excludes exactly the postings that are not fixed price, with that reason |
| Filters.ProfileIsIgnored | src/filters/job_filters.py:22-47 | the verdict does not depend on the user profile |
| Filters.OnlyBudgetTypeMatters | src/filters/job_filters.py:16-20 | two postings with the same budget type get the same verdict |
| Matches.AboveThreshold | src/processors/job_matcher.py:124-125 | the kept evaluations all reach the threshold |
| Matches.AboveThresholdCounts | src/processors/job_matcher.py:124-125 | each evaluation is kept as often as it occurs when it reaches the threshold, and never otherwise |
| Matches.AboveThresholdAppend | src/processors/job_matcher.py:121-125 | filtering two runs is filtering each and concatenating |
| Matches.AboveThresholdSnoc | src/processors/job_matcher.py:122-125 | one loop step appends the evaluation exactly when its score reaches the threshold |
| Matches.WithScore | src/processors/job_matcher.py:131 | the subsequence of entries with a given score all have that score |
| Matches.Insert | src/processors/job_matcher.py:131 | inserting into a descending list keeps it descending and adds exactly that element |
| Matches.SortDesc | src/processors/job_matcher.py:131 | the result is sorted by descending score and is a permutation of the input |
| Matches.InsertKeepsEquals | src/processors/job_matcher.py:131 | an inserted element goes before the existing entries with an equal score |
| Matches.SortIsStable | src/processors/job_matcher.py:131 | entries with equal scores keep their relative order, as Python's `sort` guarantees |
| Matches.WithScoreMembers | src/processors/job_matcher.py:131 | an element is in a list iff it is in that list's group of its own score |
| Matches.StableSortIsUnique | src/processors/job_matcher.py:131 | two descending lists with the same equal-score groups are equal, so any stable descending sort gives this result |
| Matches.TakePrefix | src/processors/job_matcher.py:132 | `matches[:max_jobs]` is a prefix of length `min(n, len)`, or of length `len + n` (at least 0) for negative n |
| Matches.Rank | src/processors/job_matcher.py:124-132 | the result is descending and within the threshold; it is a prefix of the sorted kept evaluations, of length `min(max_jobs, n)` for n kept evaluations when `max_jobs` is non-negative and `max(n + max_jobs, 0)` otherwise |
| Matches.SortKeepsBound | src/processors/job_matcher.py:131 | sorting keeps a lower bound on every score |
| Matches.RankFromLedger | src/processors/job_matcher.py:121-132 | every returned match is one of the evaluations |
| Matches.KeptWhenRoom | src/processors/job_matcher.py:124-132 | when `max_jobs` is at least the number of evaluations, every evaluation reaching the threshold is returned |
| Matcher.MissingAttribute | src/processors/job_matcher.py:34-58 | the prompt reads `experience_years` before `min_budget`; it fails on the first one missing and succeeds iff both exist |
| Matcher.ErrorMatch | src/processors/job_matcher.py:85-93 | an error gives score 0, no reasons, and one concern `評価エラー: ` followed by the message |
| Matcher.EvaluateAsWritten | src/processors/job_matcher.py:31-93 | the evaluation raises out of the method exactly when the profile lacks an attribute the prompt reads |
| Matcher.DeclaredProfileEscapes | src/processors/job_matcher.py:34-43 | a profile of the repository's own class makes the evaluation raise with the message about `experience_years` |
| Matcher.Evaluate | src/processors/job_matcher.py:31-93 | a decoded reply gives its score, reasons and concerns; any error gives a zero-score match with one `評価エラー: ` concern; the posting is kept either way |
| Matcher.EvaluateCorrectsOnlyTheEscape | src/processors/job_matcher.py:31-93 | the corrected evaluation agrees with the as-written one wherever the latter returns, and turns its escaping error into an error match |
| Matcher.FailedEvaluationNotMatched | src/processors/job_matcher.py:85-93 | with a positive threshold, a failed evaluation is never among the matches |
| Matcher.FindMatchingJobs | src/processors/job_matcher.py:95-132 | as written: with no jobs file it raises with the "not found" message; with postings and a profile lacking `experience_years` or `min_budget` it raises with that attribute's error; otherwise the ledger evaluates every posting in order, and the matches are the ranked ledger |
| Matcher.FindMatchingJobsFixed | src/processors/job_matcher.py:95-132 | corrected: it raises only when there is no jobs file; the ledger evaluates every posting in order with the corrected evaluation, and the matches are the ranked ledger |
| Matcher.RoundHalfEven | src/processors/job_matcher.py:211 | the rounded value is within one half, and ties go to the even neighbour |
| Matcher.FormatOneDecimal | src/processors/job_matcher.py:211 | `{:.1f}` ends with a point and one digit |
| Matcher.ParsePointed | src/processors/job_matcher.py:211 | digits, a point and a digit read as the whole part plus tenths |
| Matcher.ParseTenths | src/processors/job_matcher.py:211 | the rendering of n tenths reads back as n / 10 |
| Matcher.FormatReadsTenths | src/processors/job_matcher.py:211 | the score cell reads back as the rounded number of tenths, with the score's sign |
| Matcher.OneDecimalRoundTrip | src/processors/job_matcher.py:211 | the score cell reads back to within 0.05 of the score |
| Matcher.CsvRow | src/processors/job_matcher.py:205-215 | one cell per header column: title, category and budget type, the reasons and the concerns each joined with a space, a bar and a space (empty for none, the item itself for one), and the URL (empty for none) |
| Matcher.ErrorMatchRow | src/processors/job_matcher.py:85-93 | the row of a failed evaluation has an empty reasons cell and the concerns cell `評価エラー: ` followed by the message |
| Matcher.CsvRowReadsBack | src/processors/job_matcher.py:209-211 | the budget cells read back as the posting's amounts (empty for none), and the score cell reads back as the score to within 0.05 |
| Matcher.CsvTable | src/processors/job_matcher.py:188-215 | the header, then one full-width row per evaluation whose first cell is that posting's title; row k + 1 is the row of the k-th evaluation |
| Matcher.ProfileToJson | src/processors/job_matcher.py:138-145 | the profile part raises exactly when an attribute it reads is missing, with that attribute's error |
| Matcher.ProfileJsonRoundTrip | src/processors/job_matcher.py:138-145 | a profile with both attributes is written, and its dictionary reads back to the same profile |
| Matcher.MatchJsonRoundTrip | src/processors/job_matcher.py:146-156 | each entry of the match list reads back to the same match |
| Matcher.ResultsDocument | src/processors/job_matcher.py:136-157 | the document raises exactly when the profile lacks an attribute, with that attribute's error, and otherwise has the run's timestamp, the profile's dictionary and the match list |
| Matcher.ResultsListMatches | src/processors/job_matcher.py:136-157 | for a complete profile the document lists exactly the given matches, in order |
| Categories.JsonBlock | src/utils/category_selector.py:130-145 | the reply fails with `JSON format not found in response` iff it lacks a `{` or a `}`; otherwise a non-empty block runs from `{` to `}`, with no `{` before it and no `}` after it |
| Categories.JsonBlockOfWrapped | src/utils/category_selector.py:133-141 | a reply holding one block, with no `{` before it and no `}` after it, yields exactly that block |
| Categories.LastIndexIsUnique | src/utils/category_selector.py:135 | the last occurrence is the index where the character occurs with none after it |
| Categories.FindCategoryInfo | src/utils/category_selector.py:166-186 | a found entry has the requested id |
| Categories.FindIsFirstInVisitOrder | src/utils/category_selector.py:166-186 | the nested search returns the first entry with the id, visiting each main category and then its subcategories |
| Categories.FirstWithId | src/utils/category_selector.py:166-186 | the first entry in a list with a given id, or none when no entry has it |
| Categories.FirstWithIdAppend | src/utils/category_selector.py:168-184 | searching two lists in a row finds the first list's hit when there is one, and the second's otherwise |
| Categories.GetCategoryById | src/utils/category_selector.py:215-217 | same result as the first-hit search over the catalogue in visiting order |
| Categories.FindMain | src/utils/category_selector.py:193-197 | the first main category with the id; subcategories are not searched |
| Categories.DefaultCategories | src/utils/category_selector.py:188-209 | one selection iff a main category has id ai_machine_learning: type main, score 70, the fixed reason, and that entry's name and URL; otherwise none |
| Categories.Proposals | src/utils/category_selector.py:151 | a missing `selected_categories` key gives no proposals; a list gives its items; a non-object reply raises |
| Categories.ToFloat | src/utils/category_selector.py:160 | `float()` keeps numbers and raises on null, lists and objects |
| Categories.Entry | src/utils/category_selector.py:151-162 | a proposal is skipped iff its id is unknown; a non-object or id-less proposal raises; a kept one copies the catalogue's name and URL and the proposal's type, score and reason |
| Categories.CreateSelected | src/utils/category_selector.py:147-164 | there are at most as many selections as proposals, and each selection names its catalogue entry |
| Categories.CreateSelectedAppend | src/utils/category_selector.py:147-164 | proposals are processed in order, the first one that raises aborts the whole step, and the survivors keep their order |
| Categories.SelectionAttempt | src/utils/category_selector.py:106-124 | a failed call, a reply with no block, or an undecodable block raises; for a decoded block, a malformed proposal list raises with its error and a well-formed one gives the selections built from it; a success names only catalogue entries |
| Categories.SelectCategories | src/utils/category_selector.py:58-128 | anything that raises gives the default selection; an attempt that succeeds gives its selections; every selected id is in the catalogue |
| Categories.DecodedReplyIsSelected | src/utils/category_selector.py:106-124 | a reply whose block decodes to well-formed proposals gives exactly the selections built from them |
| Categories.DefaultsAreInCatalogue | src/utils/category_selector.py:188-209 | the default selection names a catalogue entry |
| Categories.EmptySelectionIsNotAnError | src/utils/category_selector.py:123-128 | a well-formed reply that selects nothing gives no categories, not the defaults |
| ConfigRewrite.Kind | simple_server.py:899-904 | a line opens the block iff, stripped, it matches `^NAME\s*=\s*\{`; it closes iff it does not open and, stripped, starts with `}` |
| ConfigRewrite.Kinds | simple_server.py:899-904 | every line is classified, in order |
| ConfigRewrite.Scan | simple_server.py:899-904 | the scan finds the first closing line after an opening line, paired with the last opening line before it; it finds nothing iff no opening line is followed by a closing line |
| ConfigRewrite.Locate | simple_server.py:895-906 | as for the scan, over the lines of the file |
| ConfigRewrite.SectionIsUnique | simple_server.py:899-904 | at most one pair of lines fits the description of what the scan settles on |
| ConfigRewrite.SectionExistsIffFound | simple_server.py:906 | a block exists iff some opening line is followed by a closing line |
| ConfigRewrite.ReprString | simple_server.py:913 | `repr` of a string is quoted at both ends with the same quote |
| ConfigRewrite.UnescapeChar | simple_server.py:913 | reading back one character as `repr` escapes it gives that character |
| ConfigRewrite.EscapeRoundTrip | simple_server.py:913 | the escaped text reads back as the original string |
| ConfigRewrite.ReprRoundTrip | simple_server.py:913 | the text between the quotes reads back as the string, and the double quote is used exactly when the string has a single quote and no double quote |
| ConfigRewrite.ReprPrintable | simple_server.py:913 | no line break and no other non-printable character below U+0100 appears in `repr` of a string |
| ConfigRewrite.EntryLines | simple_server.py:909-915 | one entry line per key, in the dictionary's order |
| ConfigRewrite.NewSectionLines | simple_server.py:908-916 | for a name, keys and values without line breaks, the regenerated text splits into the opening line, the entries, `}`, and one trailing empty piece |
| ConfigRewrite.BrokenValueSplits | simple_server.py:911 | a str value holding a line break is written as it is, so its entry splits over two pieces and the block has five pieces for one key |
| ConfigRewrite.HeaderOpens | simple_server.py:900 | the regenerated opening line `NAME = {` opens the block |
| ConfigRewrite.BraceCloses | simple_server.py:902 | a line `}` closes the block |
| ConfigRewrite.EntryIsOther | simple_server.py:902 | an entry line neither opens nor closes the block |
| ConfigRewrite.BlockKinds | simple_server.py:908-916 | the regenerated block reads as one opening line, entry lines, and one closing line |
| ConfigRewrite.Splice | simple_server.py:919-920 | the lines of the result are the lines before the block, the new pieces, and the lines after it |
| ConfigRewrite.UpdateConfigSection | simple_server.py:887-922 | without a block the content is returned unchanged |
| ConfigRewrite.RewriteReplacesSection | simple_server.py:906-920 | with a block, lines s..e are replaced by the pieces of the regenerated text, and everything else keeps its place |
| ConfigRewrite.RewriteAddsALine | simple_server.py:908-920 | for keys and values without line breaks, rewriting a second time with the same values adds one line |
| ConfigRewrite.UpdateConfigSectionFixed | simple_server.py:906-922 | without a block the content is returned unchanged |
| ConfigRewrite.FixedRewriteReplacesSection | simple_server.py:906-920 | with a block, lines s..e are replaced by exactly the lines of the block |
| ConfigRewrite.FixedRewriteIsIdempotent | simple_server.py:908-920 | for keys and values without line breaks, the corrected rewrite, applied twice with the same values, equals applying it once |
| ConfigRewrite.EmptyBlockRewrite | simple_server.py:908-920 | a block with no entries, rewritten with no values, comes back with one empty line after it |
| ConfigRewrite.EmptyBlockFixedRewrite | simple_server.py:908-920 | the corrected rewrite gives a block with no entries back unchanged when there are no values |
| ConfigRewrite.RewriteExample | simple_server.py:908-920 | for the text `X = {` then `}`, with no values, the first rewrite gives `X = {\n}\n` and the second gives `X = {\n}\n\n`; the corrected rewrite returns the text unchanged |
| Progress.DropUnderscores | simple_server.py:812 | the digits `int()` keeps from digit groups separated by underscores |
| Progress.IntLiteral | simple_server.py:812 | a literal that `int()` accepts contains a digit |
| Progress.PythonInt | simple_server.py:812 | `int(s)` succeeds only on text containing a digit |
| Progress.IntLiteralReadsBack | simple_server.py:812 | `int(str(i)) == i` for every integer |
| Progress.PythonIntReadsBack | simple_server.py:812 | `int()` ignores surrounding whitespace |
| Progress.ProgressStep | simple_server.py:808-815 | a line without `進捗:` leaves the progress unchanged; a changed progress is the value the line reads as |
| Progress.DigitlessLineIsIgnored | simple_server.py:808-815 | a line without a digit never sets the progress |
| Progress.ProgressLineIsRead | simple_server.py:808-813 | a line `…進捗:` + whitespace + a number + `%` … sets the progress to that number |
| Progress.ProgressBarLine | simple_server.py:808-813 | a line of the matcher's progress bar (description 案件評価の進捗, at 40 percent) sets the progress to 40 |
| Progress.FollowAppend | simple_server.py:806-815 | reading the output in two parts is reading it at once |
| Progress.SilentLinesKeepProgress | simple_server.py:806-815 | lines that set nothing leave the progress as it was |
| Progress.LastReadingWins | simple_server.py:806-815 | the progress is the value of the last line that sets it |
| Progress.Logs | simple_server.py:807 | every output line is logged, stripped, in order |
| Progress.FinishRun | simple_server.py:784-822 | each line is logged stripped, in order; a zero exit code sets the progress to 100 and no error; any other sets the failure message |
| Progress.FailedRunKeepsLastProgress | simple_server.py:817-822 | a failed run reports the failure message and the last progress read |
| Progress.SilentFailedRunReportsZero | simple_server.py:787 | a failed run whose output set no progress reports 0 |

## Left out

- HTML parsing (BeautifulSoup) and the browser (Playwright) are left out. A posting card is the record of the texts the code extracts from it: the title div, the card text, the budget elements, the date div and the first link.
- The language-model client is left out. Its answer is the `Oracle` or `reply` parameter.
- `json.loads` of model output is left out. It is the `decode` parameter, and `float()` of strings is the `floatOfString` parameter. The JSON writer's indentation and `ensure_ascii` are not modelled.
- File I/O is left out: reading HTML, writing JSON and CSV, and choosing the newest file by mtime. The newest jobs file's content is a parameter of `FindMatchingJobs`.
- The clock is left out. Timestamps are parameters.
- Logging and `print` are left out.
- The web server's routes, threads and `subprocess` are left out. `run_main_py` starts from the scraper's output lines and exit code. `update_config_with_web_settings` only calls `update_config_section` three times.
- Prompt texts are left out. The only effect the model keeps is the `experience_years`/`min_budget` reads that can raise.
- Progress.PythonInt: `int()` accepts only ASCII digits here; Python also accepts other Unicode decimal digits.
- Budgets.TokensAreGrouped: `\d` is ASCII digits here; Python's `re` and `int()` also accept other Unicode decimal digits, so full-width amounts such as `５０,０００円` are found by the code and not by the model.
- Dates.FindPattern: `\d` is ASCII digits here, so `２０２４年０１月１５日` (full-width digits) matches in Python and `int()` reads it, but the model reports no match.
- Dates.ParseDateText: for the same reason a date written in full-width digits is an error in the model and a date in Python.
- ConfigRewrite.ReprString: escaping of non-printable characters is modelled below U+0100 only (`\xhh`). Above, Python's `isprintable` rests on the Unicode database; characters such as U+3000 (written `\u3000` by `repr`) are kept as they are here.
- Matcher.Evaluate: the decoded reply is taken to hold a real score and lists of strings. In the source the reasons and concerns pass through unchecked (src/processors/job_matcher.py:80-82). A non-string item makes the CSV writer's `' | '.join` raise outside any `try` (src/processors/job_matcher.py:212-213), and a string is joined character by character. `float()` may also give `nan` or `inf`, which reals cannot hold; `nan` never passes `>= min_score`.
- Matcher.FormatOneDecimal works on exact reals. Binary floating point and its rounding of decimal ties are not modelled.
- ConfigRewrite.NewSectionLines: holds only for keys and values without line breaks, and the rewrite lemmas assume the same. A str value is written unescaped between double quotes (simple_server.py:911), and the description textarea (simple_server.py:368, :845) can hold a line break: the entry then splits over two lines (ConfigRewrite.BrokenValueSplits) and config.py gets an unterminated string literal. A `"` in a value likewise ends the literal early. Neither breakage is modelled beyond that lemma.
- ConfigRewrite.StartMatch takes the section name literally. Regular-expression metacharacters in the name are not interpreted.
- ConfigRewrite.Repr covers integers, booleans, `None`, lists, and strings with the escaping limits above. Other values carry their `str()` text.
- Matcher.ReadNatCell and Matcher.ParseOneDecimal read only what the writer produces. They are not a general CSV or float reader.
- Categories: a malformed catalogue file (missing keys) is not modelled.
- The duplicate-removal stage is not modelled, because it is not part of the files modelled here.
- Both UserProfile classes declare the same four fields; the model adds the two optional attributes the matcher reads.

## Findings

| source | as written | input that shows it | evidently intended | confidence | as-written member | corrected member |
|---|---|---|---|---|---|---|
| src/processors/job_matcher.py:34-60 | the prompt reads `user_profile.experience_years` and `user_profile.min_budget` before the `try`; the repository's `UserProfile` classes declare neither, so the `AttributeError` escapes the method | any profile built from src/models/user_profile.py:4-10, e.g. empty skills, categories and work types and an empty description | every failure during evaluation becomes a zero-score match with an `評価エラー: ` concern, as the `except` branch intends | not executed | Matcher.EvaluateAsWritten (Matcher.DeclaredProfileEscapes), Matcher.FindMatchingJobs | Matcher.Evaluate (Matcher.EvaluateCorrectsOnlyTheEscape), Matcher.FindMatchingJobsFixed |
| simple_server.py:908-920 | the new block text ends in `}\n`, so `split('\n')` gives a trailing empty piece, and each rewrite inserts one more empty line after the block | content `X = {\n}`, name `X`, no values: the first rewrite gives `X = {\n}\n`, and rewriting that gives `X = {\n}\n\n` | replacing the block leaves the lines after it unchanged, so rewriting with the same values (keys and values without line breaks) changes nothing | not executed | ConfigRewrite.RewriteAddsALine, ConfigRewrite.RewriteExample | ConfigRewrite.FixedRewriteIsIdempotent (ConfigRewrite.UpdateConfigSectionFixed) |
