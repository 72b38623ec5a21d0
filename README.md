# auto-Prompt core in Dafny

This project models the deterministic core of auto-Prompt, a small system that
extracts a product name, a sentiment and a reason from customer reviews with a
language model. It has two extraction pipelines and an evaluator. The Dafny
model covers each of them:

- **AutoPromptEngine** (`autoprompt.dfy`, `scoring.dfy`)
  - Renders `max_prompts_per_item` prompt variants from random picks in the
    instruction and target-info pools.
  - Calls the model on each variant in turn and scores every decoded reply with
    the heuristic of `_score_prompt`.
  - Keeps the strictly best reply, and stops at a score of 0.85 or more, or at
    the first failure once a best reply exists.
  - Turns the best reply, or the "All variants failed" sentinel, into the
    review's result.
- **BaselinePipeline** (`baseline.dfy`)
  - Renders one fixed prompt with `str.format`.
  - Makes up to three calls, retrying only on errors whose lower-cased text
    names a network problem, and waits 10 s, then 20 s.
  - Returns either the decoded reply at confidence 0.5 or a failure record.
- **`_extract_json`** (`json_span.dfy`), which both pipelines share:
  - strips the reply;
  - prefers the `{...}` group of a fenced code block, following the regular
    expression's leftmost, lazy and backtracking semantics;
  - then cuts the greedy span from the first `{` to the last `}`.
  `json.loads` is a parameter (`Records.Decoder`).
- **Evaluator** (`evaluator.dfy`)
  - Inner-joins results with the ground truth on review id.
  - Counts matches after lower-casing and stripping both sides.
  - Computes the failure rate (exact "error" / "unknown"), the edge-case
    sentiment accuracy over ids 4, 6 and 10, and the mean confidence.
  - Builds the per-metric improvement between the two pipelines.

Supporting modules:
- `text.dfy`: ASCII `lower`, `strip`, substring test, `s[:n]` and `str(n)`.
- `format.dfy`: the `{{`, `}}` and `{name}` part of `str.format`.
- `records.dfy`: `Review`, `ExtractedData` and the decoded object type.
- `wrappers.dfy`: `Option`.

What is injected rather than modelled:
- Each language-model call is an input value. For the optimiser, this is one
  `VariantFailed | VariantReplied(obj)` outcome per variant, taken after the
  retry decorator has done its work. For the baseline, it is one
  `CallRaised | CallReturned` outcome per attempt.
- `random.choice` is a sequence of pool indices.
- `time.sleep` in the baseline becomes the list of waits it would request.

Scores are integer tenths from 0 to 10, so the 0.85 threshold becomes
"at least 9 tenths". Metrics are exact reals.

The loops of both `process` methods, and the variant generation loop, are
Dafny methods with loop invariants. Each one is proved against a specification
function: `BestIndex`/`Calls`/`Outcome`, `Run` and `Variant`, respectively. The
lemmas state what the source promises about those functions.

## Model

| member | source | states |
|---|---|---|
| AutoPrompt.GenerateVariants | src/autoprompt.py:19-37 | exactly max_prompts_per_item variants; the i-th is the template filled with the i-th instruction pick, the i-th target-info pick and the review text, followed by the JSON instruction |
| AutoPrompt.Variant | src/autoprompt.py:28-35 | every variant ends with the JSON instruction, and a template without fields is used as it stands, followed by that instruction |
| AutoPrompt.VariantCarriesText | src/autoprompt.py:28-35 | a well-formed template with a `{text}` field puts the review text verbatim between the renderings of the parts around it, and the variant ends with the JSON instruction |
| AutoPrompt.SuffixKeepsDoubledBraces | src/autoprompt.py:34 | the JSON instruction is appended after formatting, so it keeps its doubled braces `{{` and `}}` |
| Scoring.Score | src/autoprompt.py:117 | the returned score never exceeds 1.0 (10 tenths) |
| Scoring.Heuristic | src/autoprompt.py:73-87 | the four credits add up to at most 10 tenths |
| Scoring.CapIsInert | src/autoprompt.py:73-87 | the four credits 0.4 + 0.3 + 0.2 + 0.1 never exceed 1.0, so the min(score, 1.0) cap never changes the score |
| Scoring.PerfectScore | src/autoprompt.py:73-87 | the score is 1.0 if and only if all keys are present, the lower-cased sentiment is one of the four, the product length is strictly between 2 and 50 and the reason is longer than 10 |
| Scoring.EarlyStopCriteria | src/autoprompt.py:148 | a score reaches 0.85 if and only if the keys, sentiment and product-length credits are all earned; the reason credit alone never decides it |
| Scoring.KeysAloneEarn | src/autoprompt.py:73-75 | having the three keys earns at least 0.4, and with all three values empty the score is exactly 0.4 |
| Scoring.ProductBoundStrict | src/autoprompt.py:81-83 | product lengths 2 and 50 earn no product credit; changing such a product to length 3 or 49 adds exactly 0.2 |
| Scoring.SentimentCaseInsensitive | src/autoprompt.py:77-79 | replacing the sentiment by any value with the same lower-case form changes neither the sentiment credit nor the score |
| Scoring.PositiveIsKnown | src/autoprompt.py:77-79 | the sentiment "Positive" counts as valid, because it is lower-cased before the comparison |
| AutoPrompt.BestOf | src/autoprompt.py:125-145 | a running maximum that starts at -1 and moves only on a strictly greater value yields the first index of the largest non-negative value, or none when every value is negative |
| AutoPrompt.BestIndex | src/autoprompt.py:142-145 | the best variant is a replied one that scores at least as high as every reply and strictly higher than every earlier reply; there is none exactly when no variant replied |
| AutoPrompt.BestIndexSnoc | src/autoprompt.py:142-145 | one more called variant becomes the best only if it replied with a score strictly greater than the current best's |
| AutoPrompt.FirstReplyBecomesBest | src/autoprompt.py:125-145 | since best_score starts at -1, the first variant that replies becomes the best whatever its score |
| AutoPrompt.TieKeepsEarliest | src/autoprompt.py:142-145 | two replies of equal score below the threshold: both are called and the first one's product is reported |
| AutoPrompt.CallsFromStops | src/autoprompt.py:129-158 | every variant called before the last one let the loop continue, and the loop ends before the last variant only because the last called variant stopped it |
| AutoPrompt.CallsFrom | src/autoprompt.py:129-158 | counting from a position, the loop makes at least one more call when variants remain, and never runs past the last |
| AutoPrompt.Calls | src/autoprompt.py:129-158 | the loop calls at most the number of variants, and at least one when there is any |
| AutoPrompt.CallsStopAt | src/autoprompt.py:147-157 | the loop ends right after the first variant that scores at least 0.85 or fails after a reply |
| AutoPrompt.CallsAll | src/autoprompt.py:129-158 | with no stopping variant, every generated variant is called |
| AutoPrompt.Outcome | src/autoprompt.py:160-177 | the result carries the review id and a confidence in [0, 1], and is labelled "autoprompt_failed" exactly when no called variant replied |
| AutoPrompt.Process | src/autoprompt.py:119-177 | the loop calls exactly the variants Calls describes and returns Outcome of those variants: the strictly best reply with confidence best_score, or the sentinel |
| AutoPrompt.OutcomeIsBest | src/autoprompt.py:170-177 | when some called variant replied, the label is autoprompt_best_of_N, with N the number of variants generated, and the confidence is at least every reply's score |
| AutoPrompt.AllFailedSentinel | src/autoprompt.py:152-168 | when every variant fails, all are called and the result is ("error", "error", "All variants failed", 0.0, "autoprompt_failed") |
| AutoPrompt.EarlyStop | src/autoprompt.py:147-150 | a variant scoring at least 0.85, with no earlier stop, is the last one called, and the confidence reported is at least 0.9 |
| AutoPrompt.EarlyStopExample | src/autoprompt.py:142-150 | scores 0.5, 0.9, 1.0: exactly two calls, and the 0.9 reply is reported with confidence 0.9 |
| AutoPrompt.FailureAfterBestStops | src/autoprompt.py:152-157 | a failure after a 0.5 reply ends the loop after two calls, although a later variant would score 1.0; the 0.5 reply is reported |
| Records.FromObject | src/baseline.py:54-61 | a success record copies product, sentiment and reason, defaulting to "unknown", "unknown" and "" for missing keys |
| Records.ErrorResult | src/autoprompt.py:160-168 | a failure record has product and sentiment "error" and confidence 0.0 |
| Baseline.PiecesLiteral | src/baseline.py:15-19 | the constant parts of the static prompt contain no brace |
| Baseline.RenderShape | src/baseline.py:15-19 | a template of brace-free pieces around `{{`, `}}` and `{text}` formats to the pieces with single braces and the text in place |
| Baseline.PromptFor | src/baseline.py:15-19 | formatting the static prompt gives the instruction, the JSON example with single braces, then the review text between quotes |
| Baseline.TryOnce | src/baseline.py:45-63 | a call that raised yields its message; a returned reply yields the object extracted from it when the decoder accepts the candidate, and the decoder's error message otherwise |
| Baseline.Settle | src/baseline.py:54-82 | success gives confidence 0.5 and "static"; failure gives "error", "error", the first 100 characters of the message, 0.0 and "static_failed" |
| Baseline.Run | src/baseline.py:43-82 | between 1 and 3 calls; every call before the last one raised a network error; the loop stops before the third call only on an attempt that is not retried; the record is settled from the last attempt |
| Baseline.RunSkips | src/baseline.py:66-72 | attempts that raised network errors are skipped over: the run from the start equals the run from the first other attempt |
| Baseline.RetryLoop | src/baseline.py:42-82 | the loop's record and call count are those of Run; the waits are 10·(attempt+1) seconds, one before each retry |
| Baseline.Process | src/baseline.py:38-82 | the prompt is PromptFor of the review text, the record and call count are those of Run, and the waits are 10 and then 20 seconds, one fewer than the calls |
| Baseline.NetworkMarker | src/baseline.py:64-67 | a message containing, in any letter case, one of unavailable/connection/timeout/tcp anywhere is a network error |
| Baseline.NetworkErrorIgnoresCase | src/baseline.py:64 | classifying the lower-cased message gives the same answer as classifying the message |
| Baseline.RetriesThenSucceeds | src/baseline.py:44-72 | two network errors and then a good reply: three calls and the reply's record at confidence 0.5 |
| Baseline.GivesUpAfterThree | src/baseline.py:68-82 | three network errors: no fourth call, and the third message, cut to 100 characters, is the failure reason |
| Baseline.OtherErrorFailsFast | src/baseline.py:63-82 | a first error without a network marker is not retried: one call and a failure record |
| Baseline.BadJsonRaises | src/baseline.py:52 | a reply json.loads rejects is an attempt that raised json.loads's message |
| JsonSpan.FirstIndex | src/baseline.py:32 | the first index of a character, or proof that it is absent |
| JsonSpan.LastIndex | src/baseline.py:32 | the last index of a character, or proof that it is absent |
| JsonSpan.GreedySpan | src/baseline.py:31-34 | with a `{` followed later by a `}` the span starts with `{` and ends with `}`; otherwise the text is unchanged |
| JsonSpan.GreedySpanIs | src/baseline.py:31-34 | the span runs exactly from the first `{` to the last `}` |
| JsonSpan.GreedySpanIdempotent | src/baseline.py:31-34 | cutting the span twice gives the same text as cutting it once |
| JsonSpan.GreedySpanAround | src/autoprompt.py:48-51 | prose without braces before and after an object is cut away, leaving the object |
| JsonSpan.SkipSpace | src/baseline.py:27 | the regular expression's `\s*`: the end of the whitespace run starting at i |
| JsonSpan.FirstCloser | src/baseline.py:27 | the lazy `.*?`: the first `}` from a position that only whitespace separates from a closing fence |
| JsonSpan.FenceSearch | src/baseline.py:27-29 | a match found by the leftmost search is a group that starts with `{` and ends with `}` |
| JsonSpan.FencedBlock | src/autoprompt.py:43-46 | the group of a fenced block starts with `{` and ends with `}` |
| JsonSpan.FencedBlockWins | src/baseline.py:26-34 | when the stripped reply holds a fenced block, that block's group is the candidate, untouched by the greedy step |
| JsonSpan.NoFenceWithoutBacktick | src/baseline.py:27-29 | text without a backtick holds no fenced block |
| JsonSpan.FencedBlockOf | src/baseline.py:27-29 | a code fence, an optional json tag, whitespace, an object without backticks, whitespace and a closing fence: the object is the fenced block |
| JsonSpan.Candidate | src/baseline.py:21-36 | the text handed to json.loads is no longer than the reply; without a fenced block it is the greedy span of the stripped reply, which is the stripped reply itself when no `{` precedes a `}`; with a fenced block or a brace pair it starts with `{` and ends with `}` |
| JsonSpan.ExtractJson | src/autoprompt.py:39-53 | json.loads is applied to the fenced block's group when the stripped reply has one, and to the stripped reply itself when that holds no `{` |
| JsonSpan.LacksNoBlock | src/autoprompt.py:43-51 | a text without `{` has neither a fenced object nor a brace pair |
| JsonSpan.BareCandidate | src/baseline.py:21-36 | an object without backticks, reaching from `{` to `}`, is its own candidate |
| JsonSpan.FencedLikeBare | src/autoprompt.py:39-53 | the same object fenced (with or without the json tag) or bare gives the same candidate, that object |
| Text.Lower | src/baseline.py:64 | ASCII lower-casing, character by character, keeping the length |
| Text.LowerIdempotent | src/baseline.py:64 | lower-casing twice equals lower-casing once |
| Text.Strip | src/autoprompt.py:41 | the result has no whitespace at either end, is no longer than the input, and is empty only for all-whitespace input |
| Text.StripIdempotent | src/autoprompt.py:41 | stripping twice equals stripping once |
| Text.StripPad | src/baseline.py:24 | whitespace added around a text does not change its strip |
| Text.StripSplit | src/baseline.py:24 | a text is its leading whitespace, its strip and its trailing whitespace, in that order |
| Text.Contains | src/baseline.py:67 | Python's `x in e`: true exactly when x occurs at some index of e |
| Text.Take | src/baseline.py:79 | `s[:100]`: the first min(len, 100) characters |
| Text.NatToString | src/autoprompt.py:176 | str(n): decimal digits without a leading zero |
| Text.NatToStringRoundTrip | src/autoprompt.py:176 | reading str(n) back gives n |
| Text.NatToStringInjective | src/autoprompt.py:176 | different variant counts give different best_of labels |
| Format.RenderDefined | src/autoprompt.py:28-32 | str.format succeeds exactly when the template is well formed for the names passed, whatever their values |
| Format.RenderAppend | src/autoprompt.py:28-32 | a template part that formats on its own formats the same way in front of any text |
| Format.RenderCat | src/autoprompt.py:28-32 | formatting distributes over concatenation when both halves format |
| Format.RenderAround | src/autoprompt.py:28-32 | a field between two well-formed parts is placed right after the first part's rendering |
| Format.Render | src/autoprompt.py:28-32 | str.format with keyword arguments: text without braces is copied unchanged |
| Format.RenderEscapes | src/baseline.py:14-17 | `{{` renders as `{` and `}}` as `}` |
| Format.RenderField | src/baseline.py:18 | a `{name}` field renders as its argument's value |
| Format.RenderTextField | src/baseline.py:40 | the `{text}` field renders as the review text |
| Evaluator.Join | src/evaluator.py:19-25 | every joined row has ground truth, and its true labels are that ground truth's; there are no more rows than results |
| Evaluator.UnmatchedDropped | src/evaluator.py:21-22 | a result whose id has no ground truth adds no row |
| Evaluator.MatchedKept | src/evaluator.py:21-22 | a result with ground truth adds exactly its row |
| Evaluator.JoinAllMatched | src/evaluator.py:21-25 | when every id has ground truth, the join has one row per result, in order |
| Evaluator.JoinCat | src/evaluator.py:21-22 | joining two batches is joining each in turn |
| Evaluator.JoinHas | src/evaluator.py:21-22 | every result with ground truth has its row in the join |
| Evaluator.NormIgnoresPadding | src/evaluator.py:27-36 | the comparison after lower-casing and stripping ignores surrounding whitespace and letter case |
| Evaluator.NormCanonical | src/evaluator.py:28-36 | a normalised value is no longer than the input, has no capital letter and no whitespace at either end, and normalising it again changes nothing |
| Evaluator.NormError | src/evaluator.py:29 | "error" normalises to itself |
| Evaluator.Count | src/evaluator.py:28-36 | the count is at most the row count; it equals it exactly when all rows match and is 0 exactly when none does |
| Evaluator.EdgeRows | src/evaluator.py:42-43 | only rows with ids 4, 6 or 10, every such row of the join among them, all drawn from the join; empty exactly when there are none |
| Evaluator.EdgeRowsCounts | src/evaluator.py:42-49 | the edge-case frame has one row per edge-case row of the join, and its correct sentiments are exactly the edge-case rows with the right sentiment |
| Evaluator.EdgeRowsCat | src/evaluator.py:42-43 | the edge-case rows of two batches are those of the first followed by those of the second |
| Evaluator.EdgeAccuracy | src/evaluator.py:42-51 | in [0, 100]; 0.0 with no edge-case rows; otherwise the number of edge-case rows with the right sentiment over the number of edge-case rows, times 100, which is 100 exactly when every edge-case row has the right sentiment |
| Evaluator.SumConfidenceBounds | src/evaluator.py:59 | with confidences in [0, 1] their sum lies between 0 and the row count |
| Evaluator.Percent | src/evaluator.py:55-56 | count / total · 100 lies in [0, 100]; it is 100 exactly when count = total and 0 exactly when count = 0 |
| Evaluator.OverallIsMean | src/evaluator.py:54-56 | (cp + cs) / (2·total) · 100 is the mean of the product and sentiment accuracies |
| Evaluator.MeanBounds | src/evaluator.py:59 | a mean of values in [0, 1] lies in [0, 1] |
| Evaluator.MetricsOf | src/evaluator.py:25-60 | accuracies and failure rate lie in [0, 100]; overall is the mean of product and sentiment accuracy; product/sentiment accuracy is 100 exactly when every row matches; failure rate is 0 exactly when no row is "error"/"unknown"; edge-case accuracy is EdgeAccuracy; average confidence lies in [0, 1] |
| Evaluator.CalculateMetrics | src/evaluator.py:14-60 | the metrics of the inner join: accuracies and failure rate in [0, 100], overall the mean of product and sentiment accuracy |
| Evaluator.GenerateReport | src/evaluator.py:62-79 | the report holds each batch's metrics, and each of the six improvements (overall, product, sentiment, failure rate, edge case, confidence) is autoprompt minus baseline |
| Evaluator.ImprovementInverse | src/evaluator.py:72-79 | adding the improvement back to the baseline gives the autoprompt metrics, key by key |
| Evaluator.SameBatchZero | tests/test_evaluator.py:101-108 | the same batch on both sides gives an all-zero improvement |
| Evaluator.PerfectPredictions | tests/test_evaluator.py:64-72 | predictions that match after normalising, none "error" or "unknown", give overall, product and sentiment accuracy 100 and failure rate 0 |
| Evaluator.ErrorRowLowers | tests/test_evaluator.py:74-99 | a joined result with product "error" whose true product is something else makes overall accuracy < 100 and failure rate > 0 |
| Evaluator.FailedRowLowers | src/evaluator.py:39-56 | one row that is both wrong and failed keeps overall accuracy below 100 and failure rate above 0 |

## Left out

- The language-model calls (`generate_content`) and the tenacity retry
  decorator on `_call_llm` are not modelled. Each variant's outcome after
  those retries is an input, and so is each baseline attempt's outcome.
- `json.loads` is a parameter, and a decoded object maps strings to strings.
  A decoder is expected to follow this convention. When the reply is an
  object and `product`, `sentiment` and `reason` are each absent or a
  string, it returns the object's string-valued entries; a list, number or
  nested object under any other key is dropped, since the source never
  reads it. It returns a `ParseError` only when the reply is not an object
  or one of those three keys holds a value that is not a string. For the
  baseline this matches the source: it reads only those three keys with
  `.get` (src/baseline.py:54-61), and the ExtractedData is built inside the
  try, so a non-string value under one of them raises there and the attempt
  fails. A reply such as `{"product": "blender", "sentiment": "negative",
  "reason": "broke after a week", "confidence": 0.9}` therefore succeeds in
  both. Dropping the other non-string entries also leaves the optimiser's
  score unchanged, because `_score_prompt` tests presence and reads only the
  same three keys (src/autoprompt.py:73-87).
- AutoPrompt.Process: a reply the source scores but cannot turn into an
  ExtractedData makes `process` raise, where the model skips it as a failed
  variant. An example is a product (or a reason) that is a list: `len`
  accepts it, so `_score_prompt` gives it a score (src/autoprompt.py:81-87)
  and it can become the best reply and stop the loop. The ExtractedData built
  from it at src/autoprompt.py:170-177 lies outside the try, its string
  fields reject the list, and the exception leaves `process`. The model instead goes on to
  later variants and may return another reply or the sentinel. A non-string
  sentiment already raises inside the try (`.lower()`), where the model's
  failure path matches the source.
- `random.choice` is not modelled. Its results are input index sequences.
- `time.sleep` is not modelled: neither the 7 s pause between variants nor the
  baseline backoff. The baseline's requested waits are returned as a list.
- The optional LLM-based blended scoring (use_llm_scoring) is not modelled.
  Blending it involves a second model call, int parsing and float arithmetic,
  and it is off by default.
- Logging, the report printing, the report file write, and the pandas loading
  in the `Evaluator` constructor are not modelled. `load_reviews` and
  `save_results` are not modelled either.
- `best_prompt` is assigned in `process` but never read, so it is not modelled.
- Scoring.Score: scores are exact tenths, while the source adds floats. With
  all four credits the source's sum is 0.9999999999999999, and with keys,
  sentiment and product it is 0.8999999999999999. Each still compares with
  0.85 the same way.
- AutoPrompt.Process, AutoPrompt.TieKeepsEarliest: ties are decided on exact
  tenths. The source's float sums give two different values for 0.3, 0.6 and
  0.7, depending on which credits make them up (for example 0.3 against
  0.30000000000000004). In the source, a later reply can therefore replace an
  earlier one that the model treats as an equal score. The reported confidence
  is the exact tenth.
- AutoPrompt.GenerateVariants: the source raises out of `process` on an empty
  candidate pool or on a template that `str.format` rejects. The model requires
  valid picks and a well-formed template instead (`PicksValid`).
- Format.Render: only `{{`, `}}` and plain `{name}` fields are modelled.
  Conversions (`!r`), format specs (`:>10`) and attribute or index access are
  treated as errors here. `str.format` applies them to a known name and raises
  only when the conversion, the spec or the access itself fails. Like the
  model, `str.format` raises on positional fields, unknown names, a lone `{`
  or `}` and an unclosed field.
- Text.Lower, Text.Strip, JsonSpan.SkipSpace: ASCII only. Python's Unicode
  case mapping is not modelled, and neither is the Unicode whitespace that
  `str.strip` and the regular expression's `\s` both match.
- Evaluator.OverallIsMean, Evaluator.MetricsOf, Evaluator.CalculateMetrics:
  the metrics are exact reals, while pandas computes them in floating point.
  The clause that overall accuracy is the mean of product and sentiment
  accuracy is an identity of the reals; the source's floats can miss it in
  the last bit. The [0, 100] bounds and the "equals 100 iff" and "equals 0
  iff" clauses hold for the float quotients as well, for any row count far
  below 2^53.
- Evaluator.CalculateMetrics: the source divides by the number of joined rows
  without a guard. The model requires at least one joined row.
- Evaluator.Join: the ground truth is a map, so ids are unique. pandas' merge
  would repeat a result's row once per duplicate ground-truth id.
- Evaluator.Join: the order of the joined rows is the order of the results,
  which is what merge keeps for the left frame. No metric depends on it.
