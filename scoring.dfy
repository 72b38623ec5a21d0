/** The heuristic part of `_score_prompt` (src/autoprompt.py), in integer
    tenths: 4 for the three keys, 3 for a known sentiment, 2 for a product
    of plausible length and 1 for a reason of some length. */
module Scoring {
  import opened Text
  import opened Records

  const ValidSentiments: seq<string> := ["positive", "negative", "neutral", "mixed"]

  /** The score at or above which the optimiser stops (0.85 in the source). */
  const EarlyStopTenths: nat := 9

  predicate HasRequiredFields(obj: Obj) {
    "product" in obj && "sentiment" in obj && "reason" in obj
  }

  predicate KnownSentiment(obj: Obj) {
    Lower(Get(obj, "sentiment", "")) in ValidSentiments
  }

  predicate ProductLengthOk(obj: Obj) {
    2 < |Get(obj, "product", "")| < 50
  }

  predicate ReasonLengthOk(obj: Obj) {
    |Get(obj, "reason", "")| > 10
  }

  /** The sum of the four credits before the min(score, 1.0) cap. */
  function Heuristic(obj: Obj): (h: nat)
    ensures h <= 10
  {
    (if HasRequiredFields(obj) then 4 else 0)
    + (if KnownSentiment(obj) then 3 else 0)
    + (if ProductLengthOk(obj) then 2 else 0)
    + (if ReasonLengthOk(obj) then 1 else 0)
  }

  /** `_score_prompt` with LLM scoring off, in tenths. */
  function Score(obj: Obj): (s: nat)
    ensures s <= 10
  {
    if Heuristic(obj) < 10 then Heuristic(obj) else 10
  }

  /** The cap never bites: the four credits add up to at most 1.0. */
  lemma CapIsInert(obj: Obj)
    ensures Score(obj) == Heuristic(obj)
  {
  }

  /** All three conditions together, and only they, earn the full score. */
  lemma PerfectScore(obj: Obj)
    ensures Score(obj) == 10
        <==> HasRequiredFields(obj) && KnownSentiment(obj) && ProductLengthOk(obj) && ReasonLengthOk(obj)
  {
  }

  /** A score reaches the early-stop threshold exactly when keys, sentiment
      and product length all earn their credit; the reason alone decides
      nothing. */
  lemma EarlyStopCriteria(obj: Obj)
    ensures Score(obj) >= EarlyStopTenths
        <==> HasRequiredFields(obj) && KnownSentiment(obj) && ProductLengthOk(obj)
  {
  }

  /** Key presence alone earns 0.4, whatever the values. */
  lemma KeysAloneEarn(obj: Obj)
    requires HasRequiredFields(obj)
    ensures Score(obj) >= 4
    ensures Score(map["product" := "", "sentiment" := "", "reason" := ""]) == 4
  {
    var empty := map["product" := "", "sentiment" := "", "reason" := ""];
    assert Lower("") == "";
    assert "" !in ValidSentiments;
  }

  /** The product bound is strict: lengths 2 and 50 earn nothing, and
      lengths 3 and 49 earn 0.2. */
  lemma ProductBoundStrict(obj: Obj, longer: string)
    requires "product" in obj && (|obj["product"]| == 2 || |obj["product"]| == 50)
    requires |longer| == 3 || |longer| == 49
    ensures !ProductLengthOk(obj)
    ensures Score(obj["product" := longer]) == Score(obj) + 2
  {
    var obj' := obj["product" := longer];
    assert Get(obj', "sentiment", "") == Get(obj, "sentiment", "");
    assert Get(obj', "reason", "") == Get(obj, "reason", "");
  }

  /** Sentiment is compared case-insensitively: replacing the sentiment by
      any value with the same lower-case form changes neither the sentiment
      credit nor the score. */
  lemma SentimentCaseInsensitive(obj: Obj, sentiment: string)
    requires "sentiment" in obj && Lower(sentiment) == Lower(obj["sentiment"])
    ensures KnownSentiment(obj["sentiment" := sentiment]) == KnownSentiment(obj)
    ensures Score(obj["sentiment" := sentiment]) == Score(obj)
  {
    var obj' := obj["sentiment" := sentiment];
    assert Get(obj', "sentiment", "") == sentiment;
    assert KnownSentiment(obj') == KnownSentiment(obj);
    assert HasRequiredFields(obj') == HasRequiredFields(obj);
    assert Get(obj', "product", "") == Get(obj, "product", "");
    assert Get(obj', "reason", "") == Get(obj, "reason", "");
    assert Heuristic(obj') == Heuristic(obj);
  }

  /** "Positive" counts as a valid sentiment. */
  lemma PositiveIsKnown()
    ensures KnownSentiment(map["sentiment" := "Positive"])
  {
    assert forall k :: 0 <= k < 8 ==> Lower("Positive")[k] == "positive"[k];
    assert Lower("Positive") == "positive";
    assert Get(map["sentiment" := "Positive"], "sentiment", "") == "Positive";
  }
}
