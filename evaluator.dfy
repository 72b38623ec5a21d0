/** Evaluator (src/evaluator.py): join a batch of results with the ground
    truth on review id, count normalised matches and failures, and compare
    two batches metric by metric. Percentages are exact reals. */
module Evaluator {
  import opened Text
  import opened Records

  /** The ground-truth labels of one review. */
  datatype Truth = Truth(product: string, sentiment: string)

  /** Ground truth keyed by review id (ids are unique). */
  type GroundTruth = map<string, Truth>

  /** One row of the inner join: prediction beside truth. */
  datatype Row = Row(
    id: string,
    productPred: string,
    productTrue: string,
    sentimentPred: string,
    sentimentTrue: string,
    confidence: real)

  /** The six metrics `calculate_metrics` returns. */
  datatype Metrics = Metrics(
    overall: real,
    product: real,
    sentiment: real,
    failureRate: real,
    edgeCase: real,
    avgConfidence: real)

  datatype Report = Report(baseline: Metrics, autoprompt: Metrics, improvement: Metrics)

  /** The reviews singled out as edge cases. */
  const EdgeIds: set<string> := {"4", "6", "10"}

  /** The joined row of a result that has ground truth. */
  function RowOf(r: ExtractedData, truth: GroundTruth): Row
    requires r.reviewId in truth
  {
    Row(r.reviewId, r.product, truth[r.reviewId].product, r.sentiment, truth[r.reviewId].sentiment, r.confidence)
  }

  /** pd.merge on review_id: results without a ground-truth row are dropped. */
  function Join(results: seq<ExtractedData>, truth: GroundTruth): (rows: seq<Row>)
    ensures |rows| <= |results|
    ensures forall k :: 0 <= k < |rows| ==>
      && rows[k].id in truth
      && rows[k].productTrue == truth[rows[k].id].product
      && rows[k].sentimentTrue == truth[rows[k].id].sentiment
  {
    if results == [] then []
    else
      var init := Join(results[..|results| - 1], truth);
      var r := results[|results| - 1];
      if r.reviewId in truth then init + [RowOf(r, truth)] else init
  }

  /** A result whose id has no ground truth leaves the join unchanged. */
  lemma UnmatchedDropped(results: seq<ExtractedData>, r: ExtractedData, truth: GroundTruth)
    requires r.reviewId !in truth
    ensures Join(results + [r], truth) == Join(results, truth)
  {
    assert (results + [r])[..|results|] == results;
  }

  /** A result with ground truth adds exactly its row. */
  lemma MatchedKept(results: seq<ExtractedData>, r: ExtractedData, truth: GroundTruth)
    requires r.reviewId in truth
    ensures Join(results + [r], truth) == Join(results, truth) + [RowOf(r, truth)]
  {
    assert (results + [r])[..|results|] == results;
  }

  /** The join has one row per result whose id is in the ground truth. */
  lemma {:induction false} JoinAllMatched(results: seq<ExtractedData>, truth: GroundTruth)
    requires forall k :: 0 <= k < |results| ==> results[k].reviewId in truth
    ensures |Join(results, truth)| == |results|
    ensures forall k :: 0 <= k < |results| ==>
      && Join(results, truth)[k].productPred == results[k].product
      && Join(results, truth)[k].sentimentPred == results[k].sentiment
      && Join(results, truth)[k].id == results[k].reviewId
  {
    if results != [] {
      JoinAllMatched(results[..|results| - 1], truth);
    }
  }

  /** `.str.lower().str.strip()`. */
  function Norm(s: string): string {
    Strip(Lower(s))
  }

  /** Comparison after normalising ignores letter case and surrounding
      whitespace: "  Coffee Maker " matches "coffee maker". */
  lemma NormIgnoresPadding(pre: string, s: string, post: string)
    requires AllSpace(pre) && AllSpace(post)
    ensures Norm(pre + s + post) == Norm(s)
    ensures Norm(Lower(s)) == Norm(s)
  {
    LowerPad(pre, s, post);
    StripPad(Lower(pre), Lower(s), Lower(post));
    LowerIdempotent(s);
  }

  /** A normalised value has no capital letter and no whitespace at either
      end, and normalising it again changes nothing. */
  lemma NormCanonical(s: string)
    ensures |Norm(s)| <= |s|
    ensures Norm(s) == [] || (!IsSpace(Norm(s)[0]) && !IsSpace(Norm(s)[|Norm(s)| - 1]))
    ensures forall k :: 0 <= k < |Norm(s)| ==> !('A' <= Norm(s)[k] <= 'Z')
    ensures Norm(Norm(s)) == Norm(s)
  {
    var t := Lower(s);
    LowerIdempotent(s);
    StripParts(t);
    var lead, core, trail := Lead(t), Strip(t), Trail(t);
    LowerAppend(lead + core, trail);
    LowerAppend(lead, core);
    LowerSlice(t, lead, core, trail);
    forall k | 0 <= k < |core|
      ensures !('A' <= core[k] <= 'Z')
    {
      assert core[k] == t[|lead| + k];
    }
    StripIdempotent(core);
    assert Norm(core) == Strip(core);
  }

  lemma LowerSlice(t: string, lead: string, core: string, trail: string)
    requires t == lead + core + trail
    requires Lower(t) == t
    requires Lower(t) == Lower(lead) + Lower(core) + Lower(trail)
    ensures Lower(core) == core
  {
    assert Lower(core) == Lower(t)[|lead|..|lead| + |core|];
    assert core == t[|lead|..|lead| + |core|];
  }

  lemma LowerPad(pre: string, s: string, post: string)
    requires AllSpace(pre) && AllSpace(post)
    ensures Lower(pre + s + post) == Lower(pre) + Lower(s) + Lower(post)
    ensures AllSpace(Lower(pre)) && AllSpace(Lower(post))
  {
    LowerAppend(pre + s, post);
    LowerAppend(pre, s);
  }

  predicate ProductCorrect(r: Row) {
    Norm(r.productPred) == Norm(r.productTrue)
  }

  predicate SentimentCorrect(r: Row) {
    Norm(r.sentimentPred) == Norm(r.sentimentTrue)
  }

  /** `isin(['error', 'unknown'])`: exact, case-sensitive membership. */
  predicate Failed(r: Row) {
    r.productPred == "error" || r.productPred == "unknown"
  }

  predicate IsEdge(r: Row) {
    r.id in EdgeIds
  }

  /** How many rows satisfy p. */
  function Count(rows: seq<Row>, p: Row -> bool): (n: nat)
    ensures n <= |rows|
    ensures n == |rows| <==> forall k :: 0 <= k < |rows| ==> p(rows[k])
    ensures n == 0 <==> forall k :: 0 <= k < |rows| ==> !p(rows[k])
  {
    if rows == [] then 0
    else
      var init := rows[..|rows| - 1];
      assert forall k :: 0 <= k < |init| ==> init[k] == rows[k];
      Count(init, p) + (if p(rows[|rows| - 1]) then 1 else 0)
  }

  /** The rows of edge-case reviews, in order. */
  function EdgeRows(rows: seq<Row>): (e: seq<Row>)
    ensures |e| <= |rows|
    ensures forall k :: 0 <= k < |e| ==> IsEdge(e[k])
    ensures e == [] <==> forall k :: 0 <= k < |rows| ==> !IsEdge(rows[k])
    ensures forall k :: 0 <= k < |rows| && IsEdge(rows[k]) ==> rows[k] in e
    ensures forall x :: x in e ==> x in rows
  {
    if rows == [] then []
    else
      var init := rows[..|rows| - 1];
      assert forall k :: 0 <= k < |init| ==> init[k] == rows[k];
      var last := rows[|rows| - 1];
      EdgeRows(init) + (if IsEdge(last) then [last] else [])
  }

  /** An edge-case row whose sentiment matches. */
  predicate EdgeSentimentCorrect(r: Row) {
    IsEdge(r) && SentimentCorrect(r)
  }

  lemma CountSnoc(rows: seq<Row>, r: Row, p: Row -> bool)
    ensures Count(rows + [r], p) == Count(rows, p) + (if p(r) then 1 else 0)
  {
    assert (rows + [r])[..|rows|] == rows;
  }

  /** EdgeRows keeps each edge-case row once: its length is the number of
      edge-case rows, and its correct sentiments are exactly those of the
      edge-case rows. */
  lemma {:induction false} EdgeRowsCounts(rows: seq<Row>)
    ensures |EdgeRows(rows)| == Count(rows, IsEdge)
    ensures Count(EdgeRows(rows), SentimentCorrect) == Count(rows, EdgeSentimentCorrect)
    decreases |rows|
  {
    if rows != [] {
      var init := rows[..|rows| - 1];
      var last := rows[|rows| - 1];
      EdgeRowsCounts(init);
      EdgeRowsStep(rows, init, last);
      if IsEdge(last) {
        CountSnoc(EdgeRows(init), last, SentimentCorrect);
      } else {
        assert EdgeRows(rows) == EdgeRows(init);
      }
    }
  }

  lemma EdgeRowsStep(rows: seq<Row>, init: seq<Row>, last: Row)
    requires rows != [] && init == rows[..|rows| - 1] && last == rows[|rows| - 1]
    ensures EdgeRows(rows) == EdgeRows(init) + (if IsEdge(last) then [last] else [])
    ensures Count(rows, IsEdge) == Count(init, IsEdge) + (if IsEdge(last) then 1 else 0)
    ensures Count(rows, EdgeSentimentCorrect)
      == Count(init, EdgeSentimentCorrect) + (if EdgeSentimentCorrect(last) then 1 else 0)
  {
  }

  /** Picking the edge-case rows of two batches is picking them from each in turn. */
  lemma {:induction false} EdgeRowsCat(a: seq<Row>, b: seq<Row>)
    ensures EdgeRows(a + b) == EdgeRows(a) + EdgeRows(b)
    decreases |b|
  {
    if b == [] {
      assert a + b == a;
    } else {
      var b', last := b[..|b| - 1], b[|b| - 1];
      EdgeRowsCat(a, b');
      assert (a + b)[..|a + b| - 1] == a + b';
      EdgeRowsStep(a + b, a + b', last);
      EdgeRowsStep(b, b', last);
      var ea, eb, tail := EdgeRows(a), EdgeRows(b'), if IsEdge(last) then [last] else [];
      assert EdgeRows(a + b) == ea + eb + tail;
      assert EdgeRows(b) == eb + tail;
      RowsAssoc(ea, eb, tail);
    }
  }

  lemma RowsAssoc(x: seq<Row>, y: seq<Row>, z: seq<Row>)
    ensures x + y + z == x + (y + z)
  {
  }

  function SumConfidence(rows: seq<Row>): real {
    if rows == [] then 0.0 else SumConfidence(rows[..|rows| - 1]) + rows[|rows| - 1].confidence
  }

  /** With every confidence in [0, 1] the sum lies in [0, number of rows]. */
  lemma {:induction false} SumConfidenceBounds(rows: seq<Row>)
    ensures (forall k :: 0 <= k < |rows| ==> 0.0 <= rows[k].confidence <= 1.0) ==>
      0.0 <= SumConfidence(rows) <= |rows| as real
  {
    if rows != [] {
      var init := rows[..|rows| - 1];
      assert forall k :: 0 <= k < |init| ==> init[k] == rows[k];
      SumConfidenceBounds(init);
    }
  }

  /** count / total * 100. */
  function Percent(count: nat, total: nat): (p: real)
    requires 0 < total && count <= total
    ensures 0.0 <= p <= 100.0
    ensures p == 100.0 <==> count == total
    ensures p == 0.0 <==> count == 0
  {
    PercentBounds(count, total);
    count as real / total as real * 100.0
  }

  lemma PercentBounds(count: nat, total: nat)
    requires 0 < total && count <= total
    ensures 0.0 <= count as real / total as real <= 1.0
    ensures count as real / total as real == 1.0 <==> count == total
  {
    var q := count as real / total as real;
    assert q * total as real == count as real;
  }

  /** Sentiment accuracy over the edge-case rows; 0.0 when there are none.
      With edge-case rows present it is 100 exactly when every one of them
      has the right sentiment. */
  function EdgeAccuracy(rows: seq<Row>): (a: real)
    ensures 0.0 <= a <= 100.0
    ensures (forall k :: 0 <= k < |rows| ==> !IsEdge(rows[k])) ==> a == 0.0
    ensures (exists k :: 0 <= k < |rows| && IsEdge(rows[k])) ==>
      (a == 100.0 <==> forall k :: 0 <= k < |rows| && IsEdge(rows[k]) ==> SentimentCorrect(rows[k]))
    ensures 0 < Count(rows, IsEdge) ==>
      Count(rows, EdgeSentimentCorrect) <= Count(rows, IsEdge)
      && a == Percent(Count(rows, EdgeSentimentCorrect), Count(rows, IsEdge))
  {
    var e := EdgeRows(rows);
    EdgeRowsCounts(rows);
    if |e| > 0 then
      EdgeAllCorrect(rows, e);
      Percent(Count(e, SentimentCorrect), |e|)
    else 0.0
  }

  lemma EdgeAllCorrect(rows: seq<Row>, e: seq<Row>)
    requires forall k :: 0 <= k < |e| ==> IsEdge(e[k])
    requires forall k :: 0 <= k < |rows| && IsEdge(rows[k]) ==> rows[k] in e
    requires forall x :: x in e ==> x in rows
    ensures (forall k :: 0 <= k < |e| ==> SentimentCorrect(e[k]))
        <==> forall k :: 0 <= k < |rows| && IsEdge(rows[k]) ==> SentimentCorrect(rows[k])
  {
    if forall k :: 0 <= k < |e| ==> SentimentCorrect(e[k]) {
      forall k | 0 <= k < |rows| && IsEdge(rows[k])
        ensures SentimentCorrect(rows[k])
      {
        assert rows[k] in e;
      }
    }
    if forall k :: 0 <= k < |rows| && IsEdge(rows[k]) ==> SentimentCorrect(rows[k]) {
      forall k | 0 <= k < |e|
        ensures SentimentCorrect(e[k])
      {
        assert e[k] in rows;
      }
    }
  }

  /** (cp + cs) / (2 * total) * 100 is the mean of the two accuracies. */
  lemma OverallIsMean(cp: nat, cs: nat, total: nat)
    requires 0 < total && cp <= total && cs <= total
    ensures (cp + cs) as real / (2 * total) as real * 100.0 == (Percent(cp, total) + Percent(cs, total)) / 2.0
  {
    var t := total as real;
    var x := (cp + cs) as real / (2.0 * t);
    var a, b := cp as real / t, cs as real / t;
    assert x * (2.0 * t) == (cp + cs) as real;
    assert a * t == cp as real && b * t == cs as real;
    var y := (a + b) / 2.0;
    assert y * (2.0 * t) == (cp + cs) as real;
    assert (x - y) * (2.0 * t) == 0.0;
  }

  /** The metrics of a non-empty set of joined rows. */
  function MetricsOf(rows: seq<Row>): (m: Metrics)
    requires |rows| > 0
    ensures 0.0 <= m.product <= 100.0 && 0.0 <= m.sentiment <= 100.0
    ensures 0.0 <= m.failureRate <= 100.0 && 0.0 <= m.edgeCase <= 100.0
    ensures m.overall == (m.product + m.sentiment) / 2.0
    ensures m.product == 100.0 <==> forall k :: 0 <= k < |rows| ==> ProductCorrect(rows[k])
    ensures m.sentiment == 100.0 <==> forall k :: 0 <= k < |rows| ==> SentimentCorrect(rows[k])
    ensures m.failureRate == 0.0 <==> forall k :: 0 <= k < |rows| ==> !Failed(rows[k])
    ensures m.edgeCase == EdgeAccuracy(rows)
    ensures (forall k :: 0 <= k < |rows| ==> 0.0 <= rows[k].confidence <= 1.0) ==> 0.0 <= m.avgConfidence <= 1.0
  {
    var total := |rows|;
    var cp := Count(rows, ProductCorrect);
    var cs := Count(rows, SentimentCorrect);
    OverallIsMean(cp, cs, total);
    SumConfidenceBounds(rows);
    MeanBounds(SumConfidence(rows), total);
    Metrics(
      (cp + cs) as real / (2 * total) as real * 100.0,
      Percent(cp, total),
      Percent(cs, total),
      Percent(Count(rows, Failed), total),
      EdgeAccuracy(rows),
      SumConfidence(rows) / total as real)
  }

  lemma MeanBounds(sum: real, n: nat)
    requires n > 0
    ensures 0.0 <= sum <= n as real ==> 0.0 <= sum / n as real <= 1.0
  {
    if 0.0 <= sum <= n as real {
      var q := sum / n as real;
      assert q * n as real == sum;
    }
  }

  /** `calculate_metrics`: the metrics of the inner join. The source divides
      by the number of joined rows without a guard, so one is required. */
  function CalculateMetrics(results: seq<ExtractedData>, truth: GroundTruth): (m: Metrics)
    requires |Join(results, truth)| > 0
    ensures 0.0 <= m.product <= 100.0 && 0.0 <= m.sentiment <= 100.0 && 0.0 <= m.failureRate <= 100.0
    ensures m.overall == (m.product + m.sentiment) / 2.0
  {
    MetricsOf(Join(results, truth))
  }

  /** `improvement`: autoprompt minus baseline, metric by metric. */
  function Improvement(baseline: Metrics, autoprompt: Metrics): (d: Metrics) {
    Metrics(
      autoprompt.overall - baseline.overall,
      autoprompt.product - baseline.product,
      autoprompt.sentiment - baseline.sentiment,
      autoprompt.failureRate - baseline.failureRate,
      autoprompt.edgeCase - baseline.edgeCase,
      autoprompt.avgConfidence - baseline.avgConfidence)
  }

  /** Adding the improvement back to the baseline gives the autoprompt metrics. */
  lemma ImprovementInverse(baseline: Metrics, autoprompt: Metrics)
    ensures var d := Improvement(baseline, autoprompt);
      Metrics(baseline.overall + d.overall, baseline.product + d.product,
              baseline.sentiment + d.sentiment, baseline.failureRate + d.failureRate,
              baseline.edgeCase + d.edgeCase, baseline.avgConfidence + d.avgConfidence) == autoprompt
  {
  }

  /** The metric part of `generate_report`. */
  function GenerateReport(baselineResults: seq<ExtractedData>, autopromptResults: seq<ExtractedData>,
                          truth: GroundTruth): (r: Report)
    requires |Join(baselineResults, truth)| > 0 && |Join(autopromptResults, truth)| > 0
    ensures r.baseline == CalculateMetrics(baselineResults, truth)
    ensures r.autoprompt == CalculateMetrics(autopromptResults, truth)
    ensures r.improvement.overall == r.autoprompt.overall - r.baseline.overall
    ensures r.improvement.product == r.autoprompt.product - r.baseline.product
    ensures r.improvement.sentiment == r.autoprompt.sentiment - r.baseline.sentiment
    ensures r.improvement.failureRate == r.autoprompt.failureRate - r.baseline.failureRate
    ensures r.improvement.edgeCase == r.autoprompt.edgeCase - r.baseline.edgeCase
    ensures r.improvement.avgConfidence == r.autoprompt.avgConfidence - r.baseline.avgConfidence
  {
    var b := CalculateMetrics(baselineResults, truth);
    var a := CalculateMetrics(autopromptResults, truth);
    Report(b, a, Improvement(b, a))
  }

  /** The same batch on both sides improves nothing. */
  lemma SameBatchZero(results: seq<ExtractedData>, truth: GroundTruth)
    requires |Join(results, truth)| > 0
    ensures GenerateReport(results, results, truth).improvement == Metrics(0.0, 0.0, 0.0, 0.0, 0.0, 0.0)
  {
  }

  /** Predictions that match after normalising, none labelled "error" or
      "unknown", score 100 on all three accuracies and 0 failures. */
  lemma PerfectPredictions(results: seq<ExtractedData>, truth: GroundTruth)
    requires |results| > 0
    requires forall k :: 0 <= k < |results| ==>
      && results[k].reviewId in truth
      && Norm(results[k].product) == Norm(truth[results[k].reviewId].product)
      && Norm(results[k].sentiment) == Norm(truth[results[k].reviewId].sentiment)
      && results[k].product != "error" && results[k].product != "unknown"
    ensures |Join(results, truth)| > 0
    ensures var m := CalculateMetrics(results, truth);
      m.overall == 100.0 && m.product == 100.0 && m.sentiment == 100.0 && m.failureRate == 0.0
  {
    JoinAllMatched(results, truth);
    var rows := Join(results, truth);
    forall k | 0 <= k < |rows|
      ensures ProductCorrect(rows[k]) && SentimentCorrect(rows[k]) && !Failed(rows[k])
    {
      var r := results[k];
      assert rows[k].id == r.reviewId;
      assert rows[k].productPred == r.product && rows[k].productTrue == truth[r.reviewId].product;
      assert rows[k].sentimentPred == r.sentiment && rows[k].sentimentTrue == truth[r.reviewId].sentiment;
    }
  }

  lemma NormError()
    ensures Norm("error") == "error"
  {
    assert forall k :: 0 <= k < 5 ==> Lower("error")[k] == "error"[k];
    assert Lower("error") == "error";
    StripBare("error");
  }

  /** A joined row labelled "error" whose true product is something else
      lowers overall accuracy below 100 and raises the failure rate above 0. */
  lemma ErrorRowLowers(results: seq<ExtractedData>, truth: GroundTruth, i: nat)
    requires i < |results| && results[i].reviewId in truth
    requires results[i].product == "error" && Norm(truth[results[i].reviewId].product) != "error"
    ensures |Join(results, truth)| > 0
    ensures var m := CalculateMetrics(results, truth);
      m.overall < 100.0 && m.failureRate > 0.0
  {
    var k := JoinHas(results, truth, i);
    var rows := Join(results, truth);
    NormError();
    assert !ProductCorrect(rows[k]) && Failed(rows[k]);
    FailedRowLowers(rows, k);
  }

  lemma FailedRowLowers(rows: seq<Row>, k: nat)
    requires k < |rows| && !ProductCorrect(rows[k]) && Failed(rows[k])
    ensures MetricsOf(rows).overall < 100.0 && MetricsOf(rows).failureRate > 0.0
  {
  }

  /** Every result with ground truth has its row in the join. */
  lemma JoinHas(results: seq<ExtractedData>, truth: GroundTruth, i: nat) returns (k: nat)
    requires i < |results| && results[i].reviewId in truth
    ensures k < |Join(results, truth)| && Join(results, truth)[k] == RowOf(results[i], truth)
  {
    var r := results[i];
    var pre, post := results[..i], results[i + 1..];
    assert results == pre + [r] + post;
    JoinCat(pre + [r], post, truth);
    MatchedKept(pre, r, truth);
    k := |Join(pre, truth)|;
  }

  /** Joining two batches is joining each in turn. */
  lemma {:induction false} JoinCat(a: seq<ExtractedData>, b: seq<ExtractedData>, truth: GroundTruth)
    ensures Join(a + b, truth) == Join(a, truth) + Join(b, truth)
    decreases |b|
  {
    if b == [] {
      assert a + b == a;
    } else {
      var b' := b[..|b| - 1];
      JoinCat(a, b', truth);
      assert (a + b)[..|a + b| - 1] == a + b';
    }
  }
}
