/**
  Synchronisation quality tracking: per-segment metrics with the issues flagged on them, and
  a report that accumulates segments and derives a summary, a confidence histogram and
  statistics from them. Issue texts are kept as structured values rather than formatted
  strings.
*/
module Quality {
  import opened Wrappers
  import opened Numbers

  /** One flagged problem, carrying the values its message is formatted from. */
  datatype Issue =
    | LowConfidence(confidence: real)
    | LargeRateJump(prevRate: Option<int>, rate: int, change: int)
    | HighRate(rate: int)
    | LowRate(rate: int)
    | NoWordsMatched
    | LowMatchRatio(matched: int, total: int)

  /** The fields of a `SegmentQualityMetrics` record at one moment. */
  datatype Metrics = Metrics(
    segmentIdx: int,
    speaker: Option<string>,
    text: string,
    confidence: real,
    rate: int,
    prevRate: Option<int>,
    rateChange: Option<int>,
    timingStrategy: string,
    wordMatchCount: int,
    totalWords: int,
    hasIssues: bool,
    issues: seq<Issue>)

  /** A record whose flag says exactly whether it has issues. */
  predicate Consistent(m: Metrics) {
    m.hasIssues <==> m.issues != []
  }

  /** The per-segment metrics record; `AddIssue` updates it in place. */
  class SegmentQualityMetrics {
    var segmentIdx: int
    var speaker: Option<string>
    var text: string
    var confidence: real
    var rate: int
    var prevRate: Option<int>
    var rateChange: Option<int>
    var timingStrategy: string
    var wordMatchCount: int
    var totalWords: int
    var hasIssues: bool
    var issues: seq<Issue>

    function Value(): Metrics
      reads this
    {
      Metrics(segmentIdx, speaker, text, confidence, rate, prevRate, rateChange, timingStrategy,
              wordMatchCount, totalWords, hasIssues, issues)
    }

    /** A new record with no issues. */
    constructor (segmentIdx: int, speaker: Option<string>, text: string, confidence: real, rate: int,
                 prevRate: Option<int>, rateChange: Option<int>, timingStrategy: string,
                 wordMatchCount: int, totalWords: int)
      ensures Value() == Metrics(segmentIdx, speaker, text, confidence, rate, prevRate, rateChange,
                                 timingStrategy, wordMatchCount, totalWords, false, [])
    {
      this.segmentIdx := segmentIdx;
      this.speaker := speaker;
      this.text := text;
      this.confidence := confidence;
      this.rate := rate;
      this.prevRate := prevRate;
      this.rateChange := rateChange;
      this.timingStrategy := timingStrategy;
      this.wordMatchCount := wordMatchCount;
      this.totalWords := totalWords;
      this.hasIssues := false;
      this.issues := [];
    }

    /** `add_issue`: appends the issue and raises the flag; nothing else changes. */
    method AddIssue(issue: Issue)
      modifies this
      ensures Value() == old(Value()).(issues := old(issues) + [issue], hasIssues := true)
      ensures Consistent(Value())
    {
      issues := issues + [issue];
      hasIssues := true;
    }
  }

  /** `rate - prev_rate` when there is a previous rate. */
  function RateChange(rate: int, prevRate: Option<int>): (r: Option<int>)
    ensures r.Some? <==> prevRate.Some?
    ensures r.Some? ==> prevRate.value + r.value == rate
  {
    if prevRate.Some? then Some(rate - prevRate.value) else None
  }

  /** The six rules of `_check_for_issues`, each giving the issue it adds, if any. */
  function ConfidenceRule(m: Metrics): seq<Issue> {
    if m.confidence < 0.5 then [LowConfidence(m.confidence)] else []
  }

  function RateJumpRule(m: Metrics): seq<Issue> {
    if m.rateChange.Some? && Abs(m.rateChange.value) > 25
    then [LargeRateJump(m.prevRate, m.rate, m.rateChange.value)] else []
  }

  function HighRateRule(m: Metrics): seq<Issue> {
    if m.rate > 40 then [HighRate(m.rate)] else []
  }

  function LowRateRule(m: Metrics): seq<Issue> {
    if m.rate < -40 then [LowRate(m.rate)] else []
  }

  function NoMatchRule(m: Metrics): seq<Issue> {
    if m.totalWords > 0 && m.wordMatchCount == 0 then [NoWordsMatched] else []
  }

  function MatchRatioRule(m: Metrics): seq<Issue> {
    if m.totalWords > 0 && m.wordMatchCount as real / m.totalWords as real < 0.5
    then [LowMatchRatio(m.wordMatchCount, m.totalWords)] else []
  }

  /** The issues `_check_for_issues` adds, in the order it checks for them. */
  function IssuesFor(m: Metrics): seq<Issue> {
    ConfidenceRule(m) + RateJumpRule(m) + HighRateRule(m) + LowRateRule(m) + NoMatchRule(m)
    + MatchRatioRule(m)
  }

  /** A record with `found` appended to its issues, flagged if there are any. */
  function WithIssues(m: Metrics, found: seq<Issue>): Metrics {
    m.(issues := m.issues + found, hasIssues := m.hasIssues || found != [])
  }

  /** Appending twice is appending the concatenation, and the rules only look at fields
      that appending leaves alone. */
  lemma WithIssuesTwice(m: Metrics, a: seq<Issue>, b: seq<Issue>)
    ensures WithIssues(WithIssues(m, a), b) == WithIssues(m, a + b)
    ensures var m' := WithIssues(m, a);
      && ConfidenceRule(m') == ConfidenceRule(m) && RateJumpRule(m') == RateJumpRule(m)
      && HighRateRule(m') == HighRateRule(m) && LowRateRule(m') == LowRateRule(m)
      && NoMatchRule(m') == NoMatchRule(m) && MatchRatioRule(m') == MatchRatioRule(m)
  {
    assert m.issues + a + b == m.issues + (a + b);
  }

  /** A record after its issues have been checked. */
  function Checked(m: Metrics): Metrics {
    WithIssues(m, IssuesFor(m))
  }

  /** The position of each rule in the checking order. */
  function RuleOf(i: Issue): nat {
    match i
    case LowConfidence(_) => 0
    case LargeRateJump(_, _, _) => 1
    case HighRate(_) => 2
    case LowRate(_) => 3
    case NoWordsMatched => 4
    case LowMatchRatio(_, _) => 5
  }

  /** The confidence and rate-range rules fire exactly under their conditions. */
  lemma IssuesForMeaning(m: Metrics)
    ensures var r := IssuesFor(m);
      && (LowConfidence(m.confidence) in r <==> m.confidence < 0.5)
      && (HighRate(m.rate) in r <==> m.rate > 40)
      && (LowRate(m.rate) in r <==> m.rate < -40)
  {
    var r := IssuesFor(m);
    assert r == ConfidenceRule(m) + RateJumpRule(m) + HighRateRule(m) + LowRateRule(m)
                + (NoMatchRule(m) + MatchRatioRule(m));
  }

  /** The rate-jump rule fires exactly when there is a change of more than 25 either way. */
  lemma IssuesForRateJump(m: Metrics)
    ensures var r := IssuesFor(m);
      && (m.rateChange.Some? ==>
            (LargeRateJump(m.prevRate, m.rate, m.rateChange.value) in r <==> Abs(m.rateChange.value) > 25))
      && (m.rateChange.None? ==> forall k :: 0 <= k < |r| ==> !r[k].LargeRateJump?)
  {
    var c, j := ConfidenceRule(m), RateJumpRule(m);
    var rest := HighRateRule(m) + LowRateRule(m) + NoMatchRule(m) + MatchRatioRule(m);
    assert IssuesFor(m) == c + j + rest;
    assert NoRateJump(c) && NoRateJump(rest);
    JumpsFromOneRule(c, j, rest);
  }

  predicate NoRateJump(issues: seq<Issue>) {
    forall k :: 0 <= k < |issues| ==> !issues[k].LargeRateJump?
  }

  /** When only the middle part can hold rate jumps, the rate jumps of the whole are its. */
  lemma JumpsFromOneRule(c: seq<Issue>, j: seq<Issue>, rest: seq<Issue>)
    requires NoRateJump(c) && NoRateJump(rest)
    ensures forall x: Issue :: x.LargeRateJump? ==> (x in c + j + rest <==> x in j)
    ensures NoRateJump(j) ==> NoRateJump(c + j + rest)
  {
  }

  /** Each word-match rule fires exactly under its condition; a match ratio below one half
      is the same as fewer than half of the words matched. */
  lemma IssuesForWordMatch(m: Metrics)
    ensures var r := IssuesFor(m);
      && (NoWordsMatched in r <==> m.totalWords > 0 && m.wordMatchCount == 0)
      && (LowMatchRatio(m.wordMatchCount, m.totalWords) in r <==>
            m.totalWords > 0 && 2 * m.wordMatchCount < m.totalWords)
  {
    var front := ConfidenceRule(m) + RateJumpRule(m) + HighRateRule(m) + LowRateRule(m);
    var n, q := NoMatchRule(m), MatchRatioRule(m);
    assert IssuesFor(m) == front + n + q;
    var none, low := NoWordsMatched, LowMatchRatio(m.wordMatchCount, m.totalWords);
    assert none !in front && low !in front;
    InLastRules(front, n, q, none);
    InLastRules(front, n, q, low);
    if m.totalWords > 0 {
      MatchRatioBelowHalf(m.wordMatchCount, m.totalWords);
    }
  }

  /** An issue absent from the earlier rules' output is in the whole exactly when a later rule
      adds it. */
  lemma InLastRules(front: seq<Issue>, n: seq<Issue>, q: seq<Issue>, x: Issue)
    requires x !in front
    ensures x in front + n + q <==> x in n || x in q
  {
  }

  lemma MatchRatioBelowHalf(matched: int, total: int)
    requires total > 0
    ensures matched as real / total as real < 0.5 <==> 2 * matched < total
  {
    var q := matched as real / total as real;
    assert q * total as real == matched as real;
    if 2 * matched < total {
      MulStrict(2.0 * q, 1.0, total as real);
    } else {
      MulMonotone(1.0, 2.0 * q, total as real);
    }
  }

  /** The issues come out in rule order, at most one per rule, so at most six. */
  lemma {:induction false} IssuesForOrdered(m: Metrics)
    ensures var r := IssuesFor(m);
      && (forall j, k :: 0 <= j < k < |r| ==> RuleOf(r[j]) < RuleOf(r[k]))
      && |r| <= 6
  {
    var c, j, h := ConfidenceRule(m), RateJumpRule(m), HighRateRule(m);
    var l, n, q := LowRateRule(m), NoMatchRule(m), MatchRatioRule(m);
    assert RulesBetween(c, 0, 1) && RulesBetween(j, 1, 2) && RulesBetween(h, 2, 3);
    assert RulesBetween(l, 3, 4) && RulesBetween(n, 4, 5) && RulesBetween(q, 5, 6);
    RulesBetweenConcat(c, j, 0, 1, 2);
    RulesBetweenConcat(c + j, h, 0, 2, 3);
    RulesBetweenConcat(c + j + h, l, 0, 3, 4);
    RulesBetweenConcat(c + j + h + l, n, 0, 4, 5);
    RulesBetweenConcat(c + j + h + l + n, q, 0, 5, 6);
  }

  /** Issues in strictly increasing rule order, all from the rules `lo` up to `hi`, so at
      most `hi - lo` of them. */
  predicate RulesBetween(r: seq<Issue>, lo: nat, hi: nat) {
    && (forall k :: 0 <= k < |r| ==> lo <= RuleOf(r[k]) < hi)
    && (forall j, k :: 0 <= j < k < |r| ==> RuleOf(r[j]) < RuleOf(r[k]))
    && lo + |r| <= hi
  }

  /** Issues from earlier rules followed by issues from later rules stay in rule order. */
  lemma RulesBetweenConcat(a: seq<Issue>, b: seq<Issue>, lo: nat, mid: nat, hi: nat)
    requires RulesBetween(a, lo, mid) && RulesBetween(b, mid, hi)
    ensures RulesBetween(a + b, lo, hi)
  {
    var r := a + b;
    forall j, k | 0 <= j < k < |r| ensures RuleOf(r[j]) < RuleOf(r[k]) {
      if k < |a| {
        assert r[j] == a[j] && r[k] == a[k];
      } else if j < |a| {
        assert r[j] == a[j] && r[k] == b[k - |a|];
      } else {
        assert r[j] == b[j - |a|] && r[k] == b[k - |a|];
      }
    }
  }

  /** A segment where no word matched among some words gets both word-match issues, last. */
  lemma ZeroMatchesFlaggedTwice(m: Metrics)
    requires m.totalWords > 0 && m.wordMatchCount == 0
    ensures var r := IssuesFor(m);
      |r| >= 2 && r[|r| - 2..] == [NoWordsMatched, LowMatchRatio(0, m.totalWords)]
  {
  }

  /** The overall quality level of an average confidence. */
  datatype Level = Excellent | Good | Fair | Poor

  function LevelRank(l: Level): nat {
    match l
    case Poor => 0
    case Fair => 1
    case Good => 2
    case Excellent => 3
  }

  /** `_confidence_to_level`. */
  function ConfidenceToLevel(confidence: real): Level {
    if confidence > 0.9 then Excellent
    else if confidence > 0.75 then Good
    else if confidence > 0.6 then Fair
    else Poor
  }

  /** The levels are the bands split at 0.6, 0.75 and 0.9, open below. */
  lemma ConfidenceToLevelMeaning(confidence: real)
    ensures ConfidenceToLevel(confidence) == Excellent <==> confidence > 0.9
    ensures ConfidenceToLevel(confidence) == Good <==> 0.75 < confidence <= 0.9
    ensures ConfidenceToLevel(confidence) == Fair <==> 0.6 < confidence <= 0.75
    ensures ConfidenceToLevel(confidence) == Poor <==> confidence <= 0.6
  {
  }

  /** A higher confidence never gets a lower level. */
  lemma ConfidenceToLevelMonotone(a: real, b: real)
    requires a <= b
    ensures LevelRank(ConfidenceToLevel(a)) <= LevelRank(ConfidenceToLevel(b))
  {
    ConfidenceToLevelMeaning(a);
    ConfidenceToLevelMeaning(b);
  }

  // ---------------------------------------------------------------- comprehensions over segments

  /** `[s.confidence for s in segments if s.total_words > 0]`. */
  function CountedConfidences(segs: seq<Metrics>): seq<real> {
    if segs == [] then []
    else
      var last := segs[|segs| - 1];
      CountedConfidences(segs[..|segs| - 1]) + (if last.totalWords > 0 then [last.confidence] else [])
  }

  /** `[abs(s.rate_change) for s in segments if s.rate_change is not None]`. */
  function AbsRateChanges(segs: seq<Metrics>): seq<int> {
    if segs == [] then []
    else
      var last := segs[|segs| - 1];
      AbsRateChanges(segs[..|segs| - 1]) + (if last.rateChange.Some? then [Abs(last.rateChange.value)] else [])
  }

  /** `[s for s in segments if s.has_issues]`. */
  function Problematic(segs: seq<Metrics>): (r: seq<Metrics>)
    ensures |r| <= |segs|
  {
    if segs == [] then []
    else
      var last := segs[|segs| - 1];
      Problematic(segs[..|segs| - 1]) + (if last.hasIssues then [last] else [])
  }

  /** `[s.rate for s in segments]`. */
  function Rates(segs: seq<Metrics>): (r: seq<int>)
    ensures |r| == |segs| && forall k :: 0 <= k < |segs| ==> r[k] == segs[k].rate
  {
    if segs == [] then [] else Rates(segs[..|segs| - 1]) + [segs[|segs| - 1].rate]
  }

  /** `sum(len(s.issues) for s in segments)`. */
  function TotalIssues(segs: seq<Metrics>): nat {
    if segs == [] then 0 else TotalIssues(segs[..|segs| - 1]) + |segs[|segs| - 1].issues|
  }

  /** The problematic segments are exactly the flagged ones, kept in order: filtering a
      concatenation filters each part. */
  lemma {:induction false} ProblematicMeaning(segs: seq<Metrics>, more: seq<Metrics>)
    ensures forall m :: m in Problematic(segs) <==> m in segs && m.hasIssues
    ensures Problematic(segs + more) == Problematic(segs) + Problematic(more)
    decreases |more|
  {
    ProblematicMembers(segs);
    if more != [] {
      var n := |more| - 1;
      ProblematicMeaning(segs, more[..n]);
      assert (segs + more)[..|segs| + n] == segs + more[..n];
    } else {
      assert segs + more == segs;
    }
  }

  lemma {:induction false} ProblematicMembers(segs: seq<Metrics>)
    ensures forall m :: m in Problematic(segs) <==> m in segs && m.hasIssues
  {
    if segs != [] {
      var init := segs[..|segs| - 1];
      ProblematicMembers(init);
      assert segs == init + [segs[|segs| - 1]];
    }
  }

  /** The counted confidences are the confidences of the segments that have words. */
  lemma {:induction false} CountedConfidencesMeaning(segs: seq<Metrics>)
    ensures forall c :: c in CountedConfidences(segs) <==>
      exists k :: 0 <= k < |segs| && segs[k].totalWords > 0 && segs[k].confidence == c
  {
    if segs != [] {
      var init := segs[..|segs| - 1];
      CountedConfidencesMeaning(init);
      forall k | 0 <= k < |init| ensures init[k] == segs[k] {
      }
    }
  }

  /** The largest absolute rate change is at least every segment's. */
  lemma {:induction false} AbsRateChangesCover(segs: seq<Metrics>)
    ensures forall k :: 0 <= k < |segs| && segs[k].rateChange.Some? ==>
      Abs(segs[k].rateChange.value) in AbsRateChanges(segs)
    ensures forall i :: 0 <= i < |AbsRateChanges(segs)| ==> AbsRateChanges(segs)[i] >= 0
  {
    if segs != [] {
      var init := segs[..|segs| - 1];
      AbsRateChangesCover(init);
      forall k | 0 <= k < |init| ensures init[k] == segs[k] {
      }
    }
  }

  /** `x` is the absolute rate change of some segment. */
  predicate ChangeOfSome(segs: seq<Metrics>, x: int) {
    exists k :: 0 <= k < |segs| && segs[k].rateChange.Some? && Abs(segs[k].rateChange.value) == x
  }

  /** Every absolute rate change in the list is that of some segment. */
  lemma {:induction false} AbsRateChangesFrom(segs: seq<Metrics>)
    ensures forall i :: 0 <= i < |AbsRateChanges(segs)| ==> ChangeOfSome(segs, AbsRateChanges(segs)[i])
  {
    if segs != [] {
      var n := |segs| - 1;
      var init := segs[..n];
      AbsRateChangesFrom(init);
      var xs, ys := AbsRateChanges(segs), AbsRateChanges(init);
      forall i | 0 <= i < |xs| ensures ChangeOfSome(segs, xs[i]) {
        if i < |ys| {
          assert xs[i] == ys[i];
          var k :| 0 <= k < |init| && init[k].rateChange.Some? && Abs(init[k].rateChange.value) == xs[i];
          assert init[k] == segs[k];
        } else {
          assert segs[n].rateChange.Some? && xs[i] == Abs(segs[n].rateChange.value);
        }
      }
    }
  }

  /** Among consistent records, each flagged one has at least one issue, and only flagged ones
      have any. */
  lemma {:induction false} IssueCounts(segs: seq<Metrics>)
    requires forall k :: 0 <= k < |segs| ==> Consistent(segs[k])
    ensures |Problematic(segs)| <= TotalIssues(segs)
    ensures |Problematic(segs)| == 0 <==> TotalIssues(segs) == 0
  {
    if segs != [] {
      IssueCounts(segs[..|segs| - 1]);
    }
  }

  // ---------------------------------------------------------------- histogram

  /** The histogram's bucket labels, in order. */
  const BucketLabels: seq<string> := ["0.0-0.2", "0.2-0.4", "0.4-0.6", "0.6-0.8", "0.8-1.0"]

  /** The bucket a confidence falls in: the first whose upper limit exceeds it, the last
      otherwise. */
  function Bucket(confidence: real): (b: nat)
    ensures b < 5
    ensures b == 0 <==> confidence < 0.2
    ensures b == 4 <==> confidence >= 0.8
    ensures 0 < b < 4 ==> 0.2 * b as real <= confidence < 0.2 * b as real + 0.2
  {
    if confidence < 0.2 then 0
    else if confidence < 0.4 then 1
    else if confidence < 0.6 then 2
    else if confidence < 0.8 then 3
    else 4
  }

  /** How many segments fall in bucket `b`. */
  function CountIn(segs: seq<Metrics>, b: nat): nat {
    if segs == [] then 0
    else CountIn(segs[..|segs| - 1], b) + (if Bucket(segs[|segs| - 1].confidence) == b then 1 else 0)
  }

  /** The histogram: the five bucket counts. */
  function Histogram(segs: seq<Metrics>): seq<nat> {
    [CountIn(segs, 0), CountIn(segs, 1), CountIn(segs, 2), CountIn(segs, 3), CountIn(segs, 4)]
  }

  /** Every segment is counted in exactly one bucket. */
  lemma {:induction false} HistogramTotal(segs: seq<Metrics>)
    ensures var h := Histogram(segs); h[0] + h[1] + h[2] + h[3] + h[4] == |segs|
  {
    if segs != [] {
      HistogramTotal(segs[..|segs| - 1]);
    }
  }

  // ---------------------------------------------------------------- summary and statistics

  datatype Summary =
    | EmptySummary
    | Summary(
        totalSegments: int,
        avgConfidence: real,
        confidenceLevel: Level,
        segmentsWithIssues: nat,
        issuePercentage: real,
        maxRateChange: int,
        avgRateChange: real)

  /** `get_summary`, without the processing time. */
  function SummaryOf(segs: seq<Metrics>, totalSegments: int): Summary
    requires segs != [] ==> totalSegments != 0
  {
    if segs == [] then EmptySummary
    else
      var confidences, rateChanges, problems := CountedConfidences(segs), AbsRateChanges(segs), Problematic(segs);
      var avgConfidence := if confidences != [] then Sum(confidences) / |confidences| as real else 0.0;
      Summary(
        totalSegments,
        avgConfidence,
        ConfidenceToLevel(avgConfidence),
        |problems|,
        Percentage(|problems|, totalSegments),
        if rateChanges != [] then IntMax(rateChanges) else 0,
        if rateChanges != [] then IntSum(rateChanges) as real / |rateChanges| as real else 0.0)
  }

  /** What the summary of a report says: nothing for no segments; otherwise the mean of the
      counted confidences (0 if none had words), bracketed by their extremes, the share of
      flagged segments as a percentage, and the largest absolute rate change, which bounds
      every segment's change and their mean. */
  lemma SummaryMeaning(segs: seq<Metrics>)
    ensures var s := SummaryOf(segs, |segs|);
      && (s.EmptySummary? <==> segs == [])
      && (s.Summary? ==>
        && s.totalSegments == |segs|
        && s.segmentsWithIssues == |Problematic(segs)| <= |segs|
        && 0.0 <= s.issuePercentage <= 100.0
        && s.confidenceLevel == ConfidenceToLevel(s.avgConfidence)
        && (CountedConfidences(segs) == [] ==> s.avgConfidence == 0.0)
        && (CountedConfidences(segs) != [] ==>
              MinOf(CountedConfidences(segs)) <= s.avgConfidence <= MaxOf(CountedConfidences(segs)))
        && s.maxRateChange >= 0
        && (forall k :: 0 <= k < |segs| && segs[k].rateChange.Some? ==>
              Abs(segs[k].rateChange.value) <= s.maxRateChange)
        && ((forall k :: 0 <= k < |segs| ==> segs[k].rateChange.None?) ==> s.maxRateChange == 0)
        && ((exists k :: 0 <= k < |segs| && segs[k].rateChange.Some?) ==>
              exists k :: 0 <= k < |segs| && segs[k].rateChange.Some? && Abs(segs[k].rateChange.value) == s.maxRateChange)
        && 0.0 <= s.avgRateChange <= s.maxRateChange as real)
  {
    if segs != [] {
      SummaryConfidence(segs);
      SummaryIssues(segs);
      SummaryRates(segs);
    }
  }

  lemma SummaryConfidence(segs: seq<Metrics>)
    requires segs != []
    ensures var s, c := SummaryOf(segs, |segs|), CountedConfidences(segs);
      && s.Summary? && s.totalSegments == |segs|
      && s.confidenceLevel == ConfidenceToLevel(s.avgConfidence)
      && (c == [] ==> s.avgConfidence == 0.0)
      && (c != [] ==> MinOf(c) <= s.avgConfidence <= MaxOf(c))
  {
    var c := CountedConfidences(segs);
    if c != [] {
      MeanBetween(c);
    }
  }

  lemma SummaryIssues(segs: seq<Metrics>)
    requires segs != []
    ensures var s := SummaryOf(segs, |segs|);
      && s.Summary? && s.segmentsWithIssues == |Problematic(segs)| <= |segs|
      && 0.0 <= s.issuePercentage <= 100.0
  {
    PercentageBetween(|Problematic(segs)|, |segs|);
  }

  /** `part` as a percentage of `whole`. */
  function Percentage(part: nat, whole: int): real
    requires whole != 0
  {
    100.0 * part as real / whole as real
  }

  /** A part of a positive whole is between 0 and 100 percent of it. */
  lemma PercentageBetween(part: nat, whole: nat)
    requires 0 < whole && part <= whole
    ensures 0.0 <= Percentage(part, whole) <= 100.0
  {
    DivBetween(0.0, 100.0 * part as real, 100.0, whole);
  }

  lemma SummaryRates(segs: seq<Metrics>)
    requires segs != []
    ensures var s := SummaryOf(segs, |segs|);
      && s.Summary? && s.maxRateChange >= 0
      && (forall k :: 0 <= k < |segs| && segs[k].rateChange.Some? ==>
            Abs(segs[k].rateChange.value) <= s.maxRateChange)
      && ((forall k :: 0 <= k < |segs| ==> segs[k].rateChange.None?) ==> s.maxRateChange == 0)
      && ((exists k :: 0 <= k < |segs| && segs[k].rateChange.Some?) ==>
            exists k :: 0 <= k < |segs| && segs[k].rateChange.Some? && Abs(segs[k].rateChange.value) == s.maxRateChange)
      && 0.0 <= s.avgRateChange <= s.maxRateChange as real
  {
    var xs := AbsRateChanges(segs);
    AbsRateChangesCover(segs);
    if xs != [] {
      RateChangeBounds(segs);
      MaxRateChangeAttained(segs);
    }
  }

  /** The largest absolute rate change is that of some segment. */
  lemma MaxRateChangeAttained(segs: seq<Metrics>)
    requires AbsRateChanges(segs) != []
    ensures ChangeOfSome(segs, IntMax(AbsRateChanges(segs)))
  {
    var xs := AbsRateChanges(segs);
    var i :| 0 <= i < |xs| && xs[i] == IntMax(xs);
    AbsRateChangesFrom(segs);
  }

  /** The largest absolute rate change bounds every segment's and their mean, which is not
      negative. */
  lemma RateChangeBounds(segs: seq<Metrics>)
    requires AbsRateChanges(segs) != []
    ensures var xs := AbsRateChanges(segs);
      && IntMax(xs) >= 0
      && 0.0 <= IntSum(xs) as real / |xs| as real <= IntMax(xs) as real
      && forall k :: 0 <= k < |segs| && segs[k].rateChange.Some? ==> Abs(segs[k].rateChange.value) <= IntMax(xs)
  {
    var xs := AbsRateChanges(segs);
    AbsRateChangesCover(segs);
    IntMeanBetween(xs);
    assert IntMin(xs) >= 0;
  }

  datatype Statistics =
    | EmptyStatistics
    | Statistics(
        totalSegments: nat,
        avgConfidence: real,
        minConfidence: real,
        maxConfidence: real,
        avgRate: real,
        minRate: int,
        maxRate: int,
        issuesCount: nat,
        totalIssues: nat)

  /** `get_statistics`. */
  function StatisticsOf(segs: seq<Metrics>): Statistics {
    if segs == [] then EmptyStatistics
    else
      var rates, confidences := Rates(segs), CountedConfidences(segs);
      Statistics(
        |segs|,
        if confidences != [] then Sum(confidences) / |confidences| as real else 0.0,
        if confidences != [] then MinOf(confidences) else 0.0,
        if confidences != [] then MaxOf(confidences) else 0.0,
        IntSum(rates) as real / |rates| as real,
        IntMin(rates),
        IntMax(rates),
        |Problematic(segs)|,
        TotalIssues(segs))
  }

  /** The statistics keep minimum <= mean <= maximum for the rates and for the counted
      confidences; the extremes are rates of actual segments; among consistent records the
      number of flagged segments is at most the number of issues and zero exactly when it is. */
  lemma StatisticsMeaning(segs: seq<Metrics>)
    ensures var st := StatisticsOf(segs);
      && (st.EmptyStatistics? <==> segs == [])
      && (st.Statistics? ==>
        && st.totalSegments == |segs|
        && st.minRate as real <= st.avgRate <= st.maxRate as real
        && (exists k :: 0 <= k < |segs| && segs[k].rate == st.minRate)
        && (exists k :: 0 <= k < |segs| && segs[k].rate == st.maxRate)
        && st.minConfidence <= st.avgConfidence <= st.maxConfidence
        && st.issuesCount == |Problematic(segs)|
        && ((forall k :: 0 <= k < |segs| ==> Consistent(segs[k])) ==>
              st.issuesCount <= st.totalIssues && (st.issuesCount == 0 <==> st.totalIssues == 0)))
  {
    if segs != [] {
      var rates, confidences := Rates(segs), CountedConfidences(segs);
      IntMeanBetween(rates);
      if confidences != [] {
        MeanBetween(confidences);
      }
      if forall k :: 0 <= k < |segs| ==> Consistent(segs[k]) {
        IssueCounts(segs);
      }
    }
  }

  // ---------------------------------------------------------------- the report

  /** A record as `add_segment` builds it, before its issues are checked. */
  function NewMetrics(segmentIdx: int, speaker: Option<string>, text: string, confidence: real, rate: int,
                      prevRate: Option<int>, timingStrategy: string, wordMatchCount: int,
                      totalWords: int): Metrics
  {
    Metrics(segmentIdx, speaker, text, confidence, rate, prevRate, RateChange(rate, prevRate),
            timingStrategy, wordMatchCount, totalWords, false, [])
  }

  /** `SyncQualityReport`: the recorded segments, in insertion order, and their count. */
  class SyncQualityReport {
    const verbose: bool
    var segments: seq<Metrics>
    var totalSegments: int

    /** The counter matches the list, and every record's flag matches its issues. */
    ghost predicate Valid()
      reads this
    {
      && totalSegments == |segments|
      && forall k :: 0 <= k < |segments| ==> Consistent(segments[k])
    }

    constructor (verbose: bool)
      ensures Valid() && this.verbose == verbose && segments == [] && totalSegments == 0
    {
      this.verbose := verbose;
      segments := [];
      totalSegments := 0;
    }

    /** `_check_for_issues`: adds, in rule order, the issues the record's values call for. */
    method CheckForIssues(metrics: SegmentQualityMetrics)
      modifies metrics
      ensures metrics.Value() == Checked(old(metrics.Value()))
    {
      ghost var m0 := metrics.Value();
      CheckConfidence(metrics);
      ghost var found := ConfidenceRule(m0);
      assert metrics.Value() == WithIssues(m0, found);
      CheckRateJump(metrics);
      WithIssuesTwice(m0, found, RateJumpRule(m0));
      found := found + RateJumpRule(m0);
      CheckHighRate(metrics);
      WithIssuesTwice(m0, found, HighRateRule(m0));
      found := found + HighRateRule(m0);
      CheckLowRate(metrics);
      WithIssuesTwice(m0, found, LowRateRule(m0));
      found := found + LowRateRule(m0);
      CheckNoMatch(metrics);
      WithIssuesTwice(m0, found, NoMatchRule(m0));
      found := found + NoMatchRule(m0);
      CheckMatchRatio(metrics);
      WithIssuesTwice(m0, found, MatchRatioRule(m0));
      found := found + MatchRatioRule(m0);
      assert found == IssuesFor(m0);
    }

    method CheckConfidence(metrics: SegmentQualityMetrics)
      modifies metrics
      ensures metrics.Value() == WithIssues(old(metrics.Value()), ConfidenceRule(old(metrics.Value())))
    {
      if metrics.confidence < 0.5 {
        metrics.AddIssue(LowConfidence(metrics.confidence));
      }
    }

    method CheckRateJump(metrics: SegmentQualityMetrics)
      modifies metrics
      ensures metrics.Value() == WithIssues(old(metrics.Value()), RateJumpRule(old(metrics.Value())))
    {
      if metrics.rateChange.Some? {
        if Abs(metrics.rateChange.value) > 25 {
          metrics.AddIssue(LargeRateJump(metrics.prevRate, metrics.rate, metrics.rateChange.value));
        }
      }
    }

    method CheckHighRate(metrics: SegmentQualityMetrics)
      modifies metrics
      ensures metrics.Value() == WithIssues(old(metrics.Value()), HighRateRule(old(metrics.Value())))
    {
      if metrics.rate > 40 {
        metrics.AddIssue(HighRate(metrics.rate));
      }
    }

    method CheckLowRate(metrics: SegmentQualityMetrics)
      modifies metrics
      ensures metrics.Value() == WithIssues(old(metrics.Value()), LowRateRule(old(metrics.Value())))
    {
      if metrics.rate < -40 {
        metrics.AddIssue(LowRate(metrics.rate));
      }
    }

    method CheckNoMatch(metrics: SegmentQualityMetrics)
      modifies metrics
      ensures metrics.Value() == WithIssues(old(metrics.Value()), NoMatchRule(old(metrics.Value())))
    {
      if metrics.totalWords > 0 && metrics.wordMatchCount == 0 {
        metrics.AddIssue(NoWordsMatched);
      }
    }

    method CheckMatchRatio(metrics: SegmentQualityMetrics)
      modifies metrics
      ensures metrics.Value() == WithIssues(old(metrics.Value()), MatchRatioRule(old(metrics.Value())))
    {
      if metrics.totalWords > 0 {
        var matchRatio := metrics.wordMatchCount as real / metrics.totalWords as real;
        if matchRatio < 0.5 {
          metrics.AddIssue(LowMatchRatio(metrics.wordMatchCount, metrics.totalWords));
        }
      }
    }

    /** `add_segment`: records one checked segment at the end and counts it. */
    method AddSegment(segmentIdx: int, speaker: Option<string>, text: string, confidence: real, rate: int,
                      prevRate: Option<int>, timingStrategy: string, wordMatchCount: int, totalWords: int)
      returns (metrics: SegmentQualityMetrics)
      requires Valid()
      modifies this
      ensures Valid() && fresh(metrics)
      ensures metrics.Value() ==
        Checked(NewMetrics(segmentIdx, speaker, text, confidence, rate, prevRate, timingStrategy,
                           wordMatchCount, totalWords))
      ensures segments == old(segments) + [metrics.Value()]
      ensures totalSegments == old(totalSegments) + 1
    {
      totalSegments := totalSegments + 1;
      var rateChange := RateChange(rate, prevRate);
      metrics := new SegmentQualityMetrics(segmentIdx, speaker, text, confidence, rate, prevRate,
                                           rateChange, timingStrategy, wordMatchCount, totalWords);
      CheckForIssues(metrics);
      segments := segments + [metrics.Value()];
    }

    /** `get_summary`. */
    function GetSummary(): Summary
      reads this
      requires Valid()
    {
      SummaryOf(segments, totalSegments)
    }

    /** `get_problematic_segments`. */
    function GetProblematicSegments(): seq<Metrics>
      reads this
    {
      Problematic(segments)
    }

    /** `get_statistics`. */
    function GetStatistics(): Statistics
      reads this
    {
      StatisticsOf(segments)
    }

    /** `get_confidence_histogram`: one pass over the segments, counting each in its bucket. */
    method GetConfidenceHistogram() returns (buckets: seq<nat>)
      ensures buckets == Histogram(segments)
    {
      buckets := [0, 0, 0, 0, 0];
      for i := 0 to |segments|
        invariant buckets == Histogram(segments[..i])
      {
        var seg := segments[i];
        assert segments[..i + 1][..i] == segments[..i];
        if seg.confidence < 0.2 {
          buckets := buckets[0 := buckets[0] + 1];
        } else if seg.confidence < 0.4 {
          buckets := buckets[1 := buckets[1] + 1];
        } else if seg.confidence < 0.6 {
          buckets := buckets[2 := buckets[2] + 1];
        } else if seg.confidence < 0.8 {
          buckets := buckets[3 := buckets[3] + 1];
        } else {
          buckets := buckets[4 := buckets[4] + 1];
        }
      }
      assert segments[..|segments|] == segments;
    }
  }
}
