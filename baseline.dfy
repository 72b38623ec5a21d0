/** BaselinePipeline (src/baseline.py): one fixed prompt, up to three calls
    that retry only on network errors, and a failure record otherwise.

    Each attempt's model call is an injected CallOutcome; json.loads is the
    injected decoder; time.sleep is recorded as the list of waits. */
module Baseline {
  import opened Wrappers
  import opened Text
  import opened Records
  import opened Format
  import opened JsonSpan

  const PromptIntro: string :=
    "\nExtract the product name " + "and sentiment from this review. " + "\nRespond ONLY with JSON format: "
  const ReviewOpen: string := "\nReview: '"
  const ReviewClose: string := "'\n"

  /** The fixed template; its doubled braces are str.format escapes. */
  const StaticPrompt: string := PromptIntro + "{{" + ReplyShape + "}}" + ReviewOpen + "{text}" + ReviewClose

  const MaxRetries: nat := 3

  /** The constant pieces hold no brace, so str.format copies them as they are. */
  lemma PiecesLiteral()
    ensures NoBraces(PromptIntro) && NoBraces(ReplyShape)
    ensures NoBraces(ReviewOpen) && NoBraces(ReviewClose)
  {
    NoBracesCat("\nExtract the product name ", "and sentiment from this review. ");
    NoBracesCat("\nExtract the product name " + "and sentiment from this review. ", "\nRespond ONLY with JSON format: ");
    NoBracesCat("\"product\": \"...\", \"sentiment\": \"...\", ", "\"reason\": \"...\"");
  }

  /** `static_prompt.format(text=...)`: the review text in quotes after the
      instruction, and the JSON example with single braces. */
  function PromptFor(text: string): (p: string)
    ensures p == PromptIntro + "{" + ReplyShape + "}" + ReviewOpen + text + ReviewClose
  {
    PiecesLiteral();
    RenderShape(PromptIntro, ReplyShape, ReviewOpen, ReviewClose, text);
    Render(StaticPrompt, map["text" := text]).value
  }

  /** The shape of the template, over any brace-free pieces. */
  lemma RenderShape(intro: string, shape: string, open: string, close: string, text: string)
    requires NoBraces(intro) && NoBraces(shape) && NoBraces(open) && NoBraces(close)
    ensures Render(intro + "{{" + shape + "}}" + open + "{text}" + close, map["text" := text])
         == Some(intro + "{" + shape + "}" + open + text + close)
  {
    var args := map["text" := text];
    assert Render(intro, args) == Some(intro);
    assert Render(shape, args) == Some(shape);
    assert Render(open, args) == Some(open);
    assert Render(close, args) == Some(close);
    RenderEscapes(args);
    RenderTextField(args);
    var t1, r1 := intro + "{{", intro + "{";
    RenderCat(intro, "{{", intro, "{", args);
    var t2, r2 := t1 + shape, r1 + shape;
    RenderCat(t1, shape, r1, shape, args);
    var t3, r3 := t2 + "}}", r2 + "}";
    RenderCat(t2, "}}", r2, "}", args);
    var t4, r4 := t3 + open, r3 + open;
    RenderCat(t3, open, r3, open, args);
    var t5, r5 := t4 + "{text}", r4 + text;
    RenderCat(t4, "{text}", r4, text, args);
    RenderCat(t5, close, r5, close, args);
  }

  /** What one model call yields: it raised with this message, or it
      returned this response text. */
  datatype CallOutcome = CallRaised(message: string) | CallReturned(text: string)

  /** One attempt of the try block: the extracted object, or the message of
      whatever it raised (the call itself or json.loads). */
  datatype Attempt = Succeeded(obj: Obj) | Raised(message: string)

  function TryOnce(o: CallOutcome, decode: Decoder): (a: Attempt)
    ensures o.CallRaised? ==> a == Raised(o.message)
    ensures o.CallReturned? ==> (a.Succeeded? <==> ExtractJson(o.text, decode).Parsed?)
    ensures o.CallReturned? && ExtractJson(o.text, decode).Parsed? ==>
      a == Succeeded(ExtractJson(o.text, decode).obj)
    ensures o.CallReturned? && ExtractJson(o.text, decode).ParseError? ==>
      a == Raised(ExtractJson(o.text, decode).message)
  {
    match o
    case CallRaised(m) => Raised(m)
    case CallReturned(t) =>
      match ExtractJson(t, decode)
      case Parsed(obj) => Succeeded(obj)
      case ParseError(m) => Raised(m)
  }

  /** The substrings that mark a network failure worth a retry. */
  const NetworkMarkers: seq<string> := ["unavailable", "connection", "timeout", "tcp"]

  /** `any(x in e for x in markers)`. */
  predicate AnyMarker(e: string, markers: seq<string>) {
    exists k :: 0 <= k < |markers| && Contains(e, markers[k])
  }

  /** The lower-cased message names one of the network markers. */
  predicate IsNetworkError(message: string) {
    AnyMarker(Lower(message), NetworkMarkers)
  }

  /** An attempt the loop retries, if attempts remain. */
  predicate Retryable(a: Attempt) {
    a.Raised? && IsNetworkError(a.message)
  }

  /** The record an attempt that ends the loop returns. */
  function Settle(id: string, a: Attempt): (d: ExtractedData)
    ensures d.reviewId == id
    ensures a.Succeeded? ==> d.confidence == 0.5 && d.promptUsed == "static"
    ensures a.Raised? ==> d.product == "error" && d.sentiment == "error" && d.confidence == 0.0
    ensures a.Raised? ==> d.promptUsed == "static_failed" && d.reason == Take(a.message, 100) && |d.reason| <= 100
  {
    match a
    case Succeeded(obj) => FromObject(id, obj, 0.5, "static")
    case Raised(m) => ErrorResult(id, Take(m, 100), "static_failed")
  }

  /** Every attempt's outcome, as the try block sees it. */
  function Attempts(outcomes: seq<CallOutcome>, decode: Decoder): seq<Attempt> {
    seq(|outcomes|, j requires 0 <= j < |outcomes| => TryOnce(outcomes[j], decode))
  }

  /** The attempts from `from` on: (result, number of calls made in all). */
  function Run(id: string, attempts: seq<Attempt>, from: nat): (r: (ExtractedData, nat))
    requires from < MaxRetries <= |attempts|
    ensures from < r.1 <= MaxRetries
    ensures forall j :: from <= j < r.1 - 1 ==> Retryable(attempts[j])
    ensures r.1 < MaxRetries ==> !Retryable(attempts[r.1 - 1])
    ensures r.0 == Settle(id, attempts[r.1 - 1])
    decreases MaxRetries - from
  {
    if Retryable(attempts[from]) && from < MaxRetries - 1 then Run(id, attempts, from + 1)
    else (Settle(id, attempts[from]), from + 1)
  }

  /** Skipping attempts that failed with a network error. */
  lemma {:induction false} RunSkips(id: string, attempts: seq<Attempt>, k: nat)
    requires k < MaxRetries <= |attempts|
    requires forall j :: 0 <= j < k ==> Retryable(attempts[j])
    ensures Run(id, attempts, 0) == Run(id, attempts, k)
  {
    if k > 0 {
      RunSkips(id, attempts, k - 1);
    }
  }

  /** `process`: render the static prompt, then run the attempt loop. */
  method Process(review: Review, outcomes: seq<CallOutcome>, decode: Decoder)
    returns (prompt: string, result: ExtractedData, calls: nat, waits: seq<nat>)
    requires |outcomes| >= MaxRetries
    ensures prompt == PromptFor(review.reviewText)
    ensures (result, calls) == Run(review.reviewId, Attempts(outcomes, decode), 0)
    ensures |waits| == calls - 1
    ensures forall j :: 0 <= j < |waits| ==> waits[j] == 10 * (j + 1)
  {
    prompt := PromptFor(review.reviewText);
    result, calls, waits := RetryLoop(review.reviewId, outcomes, decode);
  }

  /** The attempt loop of `process`: up to three calls, waiting 10, then 20
      seconds between them. The model is called with the prompt each time;
      outcomes[attempt] is what that call yields. */
  method RetryLoop(id: string, outcomes: seq<CallOutcome>, decode: Decoder)
    returns (result: ExtractedData, calls: nat, waits: seq<nat>)
    requires |outcomes| >= MaxRetries
    ensures (result, calls) == Run(id, Attempts(outcomes, decode), 0)
    ensures |waits| == calls - 1
    ensures forall j :: 0 <= j < |waits| ==> waits[j] == 10 * (j + 1)
  {
    ghost var attempts := Attempts(outcomes, decode);
    waits := [];
    calls := 0;
    for attempt := 0 to MaxRetries
      invariant attempt < MaxRetries
      invariant calls == attempt && |waits| == attempt
      invariant forall j :: 0 <= j < attempt ==> waits[j] == 10 * (j + 1)
      invariant forall j :: 0 <= j < attempt ==> Retryable(attempts[j])
    {
      calls := calls + 1;
      RunSkips(id, attempts, attempt);
      match TryOnce(outcomes[attempt], decode) {
        case Succeeded(data) =>
          result := FromObject(id, data, 0.5, "static");
          return;
        case Raised(message) =>
          if !(IsNetworkError(message) && attempt < MaxRetries - 1) {
            result := ErrorResult(id, Take(message, 100), "static_failed");
            return;
          }
          waits := waits + [10 * (attempt + 1)];
      }
    }
    assert false;
  }

  /** The markers match in any letter case, anywhere in the message. */
  lemma NetworkMarker(pre: string, word: string, post: string)
    requires Lower(word) in NetworkMarkers
    ensures IsNetworkError(pre + word + post)
  {
    var m := Lower(word);
    LowerAppend(pre + word, post);
    LowerAppend(pre, word);
    var e := Lower(pre + word + post);
    assert e == Lower(pre) + m + Lower(post);
    assert e[|pre|..|pre| + |m|] == m;
    ContainsAt(e, m, |pre|);
  }

  /** Classifying the lower-cased message gives the same answer. */
  lemma NetworkErrorIgnoresCase(message: string)
    ensures IsNetworkError(Lower(message)) == IsNetworkError(message)
  {
    LowerIdempotent(message);
  }

  /** Two network errors, then a good reply: three calls, the reply's data at confidence 0.5. */
  lemma RetriesThenSucceeds(id: string, m1: string, m2: string, obj: Obj)
    requires IsNetworkError(m1) && IsNetworkError(m2)
    ensures Run(id, [Raised(m1), Raised(m2), Succeeded(obj)], 0) == (FromObject(id, obj, 0.5, "static"), 3)
  {
    RunSkips(id, [Raised(m1), Raised(m2), Succeeded(obj)], 2);
  }

  /** Three network errors: the third is not retried, and its message, cut
      to 100 characters, is the failure reason. */
  lemma GivesUpAfterThree(id: string, m1: string, m2: string, m3: string)
    requires IsNetworkError(m1) && IsNetworkError(m2) && IsNetworkError(m3)
    ensures Run(id, [Raised(m1), Raised(m2), Raised(m3)], 0) == (ErrorResult(id, Take(m3, 100), "static_failed"), 3)
  {
    RunSkips(id, [Raised(m1), Raised(m2), Raised(m3)], 2);
  }

  /** Any other failure on the first call, such as a reply json.loads
      rejects, is not retried: one call and a failure record. */
  lemma OtherErrorFailsFast(id: string, attempts: seq<Attempt>, message: string)
    requires |attempts| >= MaxRetries && attempts[0] == Raised(message) && !IsNetworkError(message)
    ensures Run(id, attempts, 0) == (ErrorResult(id, Take(message, 100), "static_failed"), 1)
  {
  }

  /** A reply json.loads rejects is an attempt that raised its message. */
  lemma BadJsonRaises(text: string, decode: Decoder, message: string)
    requires decode(Candidate(text)) == ParseError(message)
    ensures TryOnce(CallReturned(text), decode) == Raised(message)
  {
  }
}
