/** `JobMatch` and the ranking step of `find_matching_jobs` in
    src/processors/job_matcher.py: keep the evaluations that reach the
    threshold, sort them by descending score with Python's stable sort,
    and cut the list with the slice `[:max_jobs]`. */
module Matches {
  import opened Extractor

  /** An evaluated posting: relevance score, reasons for and concerns about the match. */
  datatype JobMatch = JobMatch(job: JobItem, score: real, reasons: seq<string>, concerns: seq<string>)

  // ---------------------------------------------------------------------
  // Threshold

  /** The evaluations with score at least `minScore`, in evaluation order. */
  function AboveThreshold(ms: seq<JobMatch>, minScore: real): (r: seq<JobMatch>)
    ensures |r| <= |ms|
    ensures forall k :: 0 <= k < |r| ==> r[k].score >= minScore
  {
    if |ms| == 0 then []
    else if ms[0].score >= minScore then [ms[0]] + AboveThreshold(ms[1..], minScore)
    else AboveThreshold(ms[1..], minScore)
  }

  /** Exactly the evaluations that reach the threshold are kept, each as
      often as it occurs in the ledger. */
  lemma {:induction false} AboveThresholdCounts(ms: seq<JobMatch>, minScore: real, x: JobMatch)
    ensures multiset(AboveThreshold(ms, minScore))[x] == if x.score >= minScore then multiset(ms)[x] else 0
  {
    if |ms| > 0 {
      AboveThresholdCounts(ms[1..], minScore, x);
      assert ms == [ms[0]] + ms[1..];
    }
  }

  lemma {:induction false} AboveThresholdAppend(a: seq<JobMatch>, b: seq<JobMatch>, minScore: real)
    ensures AboveThreshold(a + b, minScore) == AboveThreshold(a, minScore) + AboveThreshold(b, minScore)
  {
    if |a| == 0 {
      assert a + b == b;
    } else {
      assert (a + b)[0] == a[0];
      assert (a + b)[1..] == a[1..] + b;
      AboveThresholdAppend(a[1..], b, minScore);
    }
  }

  /** One more evaluation: it joins the kept ones exactly when it reaches the threshold. */
  lemma AboveThresholdSnoc(ms: seq<JobMatch>, m: JobMatch, minScore: real)
    ensures m.score >= minScore ==> AboveThreshold(ms + [m], minScore) == AboveThreshold(ms, minScore) + [m]
    ensures m.score < minScore ==> AboveThreshold(ms + [m], minScore) == AboveThreshold(ms, minScore)
  {
    AboveThresholdAppend(ms, [m], minScore);
    assert AboveThreshold(ms, minScore) + [] == AboveThreshold(ms, minScore);
  }

  // ---------------------------------------------------------------------
  // Stable descending sort

  predicate SortedDesc(ms: seq<JobMatch>) {
    forall i, j :: 0 <= i < j < |ms| ==> ms[i].score >= ms[j].score
  }

  /** The entries with score exactly `v`, in order.  A sort is stable when
      it keeps each of these subsequences as it was. */
  function WithScore(ms: seq<JobMatch>, v: real): (r: seq<JobMatch>)
    ensures |r| <= |ms|
    ensures forall k :: 0 <= k < |r| ==> r[k].score == v
  {
    if |ms| == 0 then []
    else if ms[0].score == v then [ms[0]] + WithScore(ms[1..], v)
    else WithScore(ms[1..], v)
  }

  /** Places `m` after every entry with a higher score and before the rest:
      ahead of its equals, since `m` came first. */
  function Insert(m: JobMatch, sorted: seq<JobMatch>): (r: seq<JobMatch>)
    requires SortedDesc(sorted)
    ensures SortedDesc(r)
    ensures multiset(r) == multiset(sorted) + multiset{m}
    ensures |r| == |sorted| + 1
    ensures r[0] == m || (|sorted| > 0 && r[0] == sorted[0])
  {
    if |sorted| == 0 then [m]
    else if m.score >= sorted[0].score then [m] + sorted
    else
      var rest := Insert(m, sorted[1..]);
      assert sorted == [sorted[0]] + sorted[1..];
      assert rest[0].score <= sorted[0].score;
      assert forall j :: 0 <= j < |rest| ==> rest[j].score <= rest[0].score;
      [sorted[0]] + rest
  }

  /** `list.sort(key=score, reverse=True)`. */
  function SortDesc(ms: seq<JobMatch>): (r: seq<JobMatch>)
    ensures SortedDesc(r)
    ensures multiset(r) == multiset(ms)
    ensures |r| == |ms|
  {
    if |ms| == 0 then []
    else
      assert ms == [ms[0]] + ms[1..];
      Insert(ms[0], SortDesc(ms[1..]))
  }

  lemma {:induction false} InsertKeepsEquals(m: JobMatch, sorted: seq<JobMatch>, v: real)
    requires SortedDesc(sorted)
    ensures WithScore(Insert(m, sorted), v) == (if m.score == v then [m] else []) + WithScore(sorted, v)
  {
    if |sorted| == 0 {
    } else if m.score >= sorted[0].score {
      assert ([m] + sorted)[1..] == sorted;
    } else {
      var rest := Insert(m, sorted[1..]);
      assert ([sorted[0]] + rest)[1..] == rest;
      InsertKeepsEquals(m, sorted[1..], v);
    }
  }

  /** The sort is stable: among equal scores the evaluation order survives. */
  lemma {:induction false} SortIsStable(ms: seq<JobMatch>, v: real)
    ensures WithScore(SortDesc(ms), v) == WithScore(ms, v)
  {
    if |ms| > 0 {
      SortIsStable(ms[1..], v);
      InsertKeepsEquals(ms[0], SortDesc(ms[1..]), v);
    }
  }

  lemma {:induction false} WithScoreMembers(ms: seq<JobMatch>, x: JobMatch)
    ensures x in ms <==> x in WithScore(ms, x.score)
  {
    if |ms| > 0 {
      WithScoreMembers(ms[1..], x);
      assert ms == [ms[0]] + ms[1..];
    }
  }

  /** Sortedness and stability pin the result down: two descending lists
      that agree on the order of every group of equal scores are equal.
      So `SortDesc` is the only order Python's stable sort can produce. */
  lemma {:induction false} StableSortIsUnique(a: seq<JobMatch>, b: seq<JobMatch>)
    requires SortedDesc(a) && SortedDesc(b)
    requires forall v :: WithScore(a, v) == WithScore(b, v)
    ensures a == b
    decreases |a|
  {
    if |a| == 0 {
      if |b| > 0 {
        GroupOfHead(b);
        assert false;
      }
    } else if |b| == 0 {
      GroupOfHead(a);
      assert false;
    } else {
      HeadIsTop(a, b);
      HeadIsTop(b, a);
      assert b[0].score == a[0].score;
      HeadsAgree(a, b);
      TailGroups(a, b);
      SortedTail(a);
      SortedTail(b);
      StableSortIsUnique(a[1..], b[1..]);
      assert a == [a[0]] + a[1..] && b == [b[0]] + b[1..];
    }
  }

  /** Lists with the same score groups and the same top score share their head. */
  lemma HeadsAgree(a: seq<JobMatch>, b: seq<JobMatch>)
    requires |a| > 0 && |b| > 0 && a[0].score == b[0].score
    requires forall v :: WithScore(a, v) == WithScore(b, v)
    ensures a[0] == b[0]
  {
    var v := a[0].score;
    assert WithScore(a, v)[0] == a[0];
    assert WithScore(b, v)[0] == b[0];
  }

  /** Dropping a shared head keeps the score groups equal. */
  lemma TailGroups(a: seq<JobMatch>, b: seq<JobMatch>)
    requires |a| > 0 && |b| > 0 && a[0] == b[0]
    requires forall v :: WithScore(a, v) == WithScore(b, v)
    ensures forall u :: WithScore(a[1..], u) == WithScore(b[1..], u)
  {
    forall u
      ensures WithScore(a[1..], u) == WithScore(b[1..], u)
    {
      assert WithScore(a, u) == WithScore(b, u);
      if u == a[0].score {
        var ta, tb := WithScore(a[1..], u), WithScore(b[1..], u);
        assert WithScore(a, u) == [a[0]] + ta;
        assert WithScore(b, u) == [b[0]] + tb;
        assert ([a[0]] + ta)[1..] == ta;
        assert ([b[0]] + tb)[1..] == tb;
      }
    }
  }

  lemma SortedTail(a: seq<JobMatch>)
    requires SortedDesc(a) && |a| > 0
    ensures SortedDesc(a[1..])
  {
    assert forall i, j :: 0 <= i < j < |a| - 1 ==> a[1..][i] == a[i + 1] && a[1..][j] == a[j + 1];
  }

  lemma GroupOfHead(s: seq<JobMatch>)
    requires |s| > 0
    ensures WithScore(s, s[0].score) != []
  {
  }

  /** The head of a descending list has at least the score of any entry of
      a list with the same score groups. */
  lemma HeadIsTop(a: seq<JobMatch>, b: seq<JobMatch>)
    requires SortedDesc(a) && |a| > 0 && |b| > 0
    requires forall v :: WithScore(a, v) == WithScore(b, v)
    ensures a[0].score >= b[0].score
  {
    var x := b[0];
    WithScoreMembers(b, x);
    assert WithScore(a, x.score) == WithScore(b, x.score);
    WithScoreMembers(a, x);
    var i :| 0 <= i < |a| && a[i] == x;
  }

  // ---------------------------------------------------------------------
  // Slicing

  /** Python's `s[:n]`, negative `n` counting from the end. */
  function TakePrefix<T>(s: seq<T>, n: int): (r: seq<T>)
    ensures n >= 0 ==> |r| == if n < |s| then n else |s|
    ensures n < 0 ==> |r| == if -n < |s| then |s| + n else 0
    ensures r == s[..|r|]
  {
    if n >= 0 then (if n < |s| then s[..n] else s)
    else if -n < |s| then s[..|s| + n]
    else []
  }

  /** The ranking of `find_matching_jobs`: threshold, sort, slice. */
  function Rank(ledger: seq<JobMatch>, minScore: real, maxJobs: int): (r: seq<JobMatch>)
    ensures SortedDesc(r)
    ensures forall k :: 0 <= k < |r| ==> r[k].score >= minScore
    ensures maxJobs >= 0 ==> |r| <= maxJobs
    ensures var n := |AboveThreshold(ledger, minScore)|;
      |r| == if maxJobs >= 0 then (if maxJobs < n then maxJobs else n)
             else (if -maxJobs < n then n + maxJobs else 0)
    ensures r == SortDesc(AboveThreshold(ledger, minScore))[..|r|]
  {
    var kept := AboveThreshold(ledger, minScore);
    var sorted := SortDesc(kept);
    SortKeepsBound(kept, minScore);
    var r := TakePrefix(sorted, maxJobs);
    assert forall k :: 0 <= k < |r| ==> r[k] == sorted[k];
    r
  }

  /** Sorting brings in no entry below a bound all entries meet. */
  lemma SortKeepsBound(ms: seq<JobMatch>, bound: real)
    requires forall k :: 0 <= k < |ms| ==> ms[k].score >= bound
    ensures forall k :: 0 <= k < |SortDesc(ms)| ==> SortDesc(ms)[k].score >= bound
  {
    var sorted := SortDesc(ms);
    forall k | 0 <= k < |sorted|
      ensures sorted[k].score >= bound
    {
      assert sorted[k] in multiset(ms);
    }
  }

  /** Every returned match is an evaluation from the ledger. */
  lemma RankFromLedger(ledger: seq<JobMatch>, minScore: real, maxJobs: int, k: int)
    requires 0 <= k < |Rank(ledger, minScore, maxJobs)|
    ensures Rank(ledger, minScore, maxJobs)[k] in ledger
  {
    var x := Rank(ledger, minScore, maxJobs)[k];
    var sorted := SortDesc(AboveThreshold(ledger, minScore));
    assert x == sorted[k];
    assert x in multiset(sorted);
    AboveThresholdCounts(ledger, minScore, x);
  }

  /** Every evaluation that reaches the threshold is among the results
      when `max_jobs` leaves room for all of them. */
  lemma KeptWhenRoom(ledger: seq<JobMatch>, minScore: real, maxJobs: int, k: int)
    requires 0 <= k < |ledger| && ledger[k].score >= minScore
    requires maxJobs >= |ledger|
    ensures ledger[k] in Rank(ledger, minScore, maxJobs)
  {
    var x := ledger[k];
    var kept := AboveThreshold(ledger, minScore);
    AboveThresholdCounts(ledger, minScore, x);
    assert x in multiset(kept);
    assert Rank(ledger, minScore, maxJobs) == SortDesc(kept);
  }
}
