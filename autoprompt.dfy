/** AutoPromptEngine (src/autoprompt.py): render N prompt variants from the
    candidate pools, call the model on each in turn, keep the strictly best
    heuristic score, stop early on a good score or on the first failure after
    a usable answer, and turn the best answer into the item's result.

    The model and the retry decorator around it are one injected outcome per
    variant; `random.choice` is an injected sequence of pool indices. */
module AutoPrompt {
  import opened Wrappers
  import opened Text
  import opened Records
  import opened Format
  import opened Scoring

  /** The configuration entries the engine reads. */
  datatype Config = Config(
    template: string,
    instructions: seq<string>,
    targetInfos: seq<string>,
    maxPrompts: nat)

  /** What one variant's call yields after its retries: a failure (the call
      raised or json.loads did), or the decoded object. */
  datatype VariantOutcome = VariantFailed | VariantReplied(obj: Obj)

  const TemplateKeys: set<string> := {"instruction", "target_info", "text"}

  const JsonIntro: string := "\nRespond ONLY with JSON: "

  /** Appended after str.format, so its doubled braces stay doubled. */
  const JsonSuffix: string := JsonIntro + "{{" + ReplyShape + "}}"

  const FailedLabel: string := "autoprompt_failed"

  function BestOfLabel(n: nat): string {
    "autoprompt_best_of_" + NatToString(n)
  }

  function TemplateArgs(instruction: string, targetInfo: string, text: string): (m: map<string, string>)
    ensures m.Keys == TemplateKeys
  {
    map["instruction" := instruction, "target_info" := targetInfo, "text" := text]
  }

  /** One rendered variant: the template filled in, then the JSON
      instruction; a template without fields is used as it stands. */
  function Variant(template: string, instruction: string, targetInfo: string, text: string): (v: string)
    requires Renders(template, TemplateKeys)
    ensures |v| >= |JsonSuffix| && v[|v| - |JsonSuffix|..] == JsonSuffix
    ensures NoBraces(template) ==> v == template + JsonSuffix
  {
    RenderDefined(template, TemplateArgs(instruction, targetInfo, text));
    var body := Render(template, TemplateArgs(instruction, targetInfo, text)).value;
    assert (body + JsonSuffix)[|body|..] == JsonSuffix;
    body + JsonSuffix
  }

  /** What `_generate_prompt_variants` needs so as not to raise: every random
      pick lies in its pool and, if anything is rendered, the template is
      well formed for the three keyword arguments. */
  predicate PicksValid(c: Config, instrPicks: seq<nat>, targetPicks: seq<nat>) {
    && |instrPicks| >= c.maxPrompts
    && |targetPicks| >= c.maxPrompts
    && (forall i :: 0 <= i < c.maxPrompts ==> instrPicks[i] < |c.instructions|)
    && (forall i :: 0 <= i < c.maxPrompts ==> targetPicks[i] < |c.targetInfos|)
    && (c.maxPrompts > 0 ==> Renders(c.template, TemplateKeys))
  }

  /** `_generate_prompt_variants`: exactly max_prompts_per_item variants, the
      i-th built from the i-th pair of picks. */
  method GenerateVariants(c: Config, text: string, instrPicks: seq<nat>, targetPicks: seq<nat>)
    returns (variants: seq<string>)
    requires PicksValid(c, instrPicks, targetPicks)
    ensures |variants| == c.maxPrompts
    ensures forall i :: 0 <= i < |variants| ==>
      variants[i] == Variant(c.template, c.instructions[instrPicks[i]], c.targetInfos[targetPicks[i]], text)
  {
    variants := [];
    for i := 0 to c.maxPrompts
      invariant |variants| == i
      invariant forall j :: 0 <= j < i ==>
        variants[j] == Variant(c.template, c.instructions[instrPicks[j]], c.targetInfos[targetPicks[j]], text)
    {
      var instruction := c.instructions[instrPicks[i]];
      var targetInfo := c.targetInfos[targetPicks[i]];
      var args := TemplateArgs(instruction, targetInfo, text);
      RenderDefined(c.template, args);
      var prompt := Render(c.template, args).value;
      prompt := prompt + JsonSuffix;
      variants := variants + [prompt];
    }
  }

  /** A template that mentions `{text}` puts the review text into the
      variant, between the renderings of what comes before and after it, and
      the variant ends with the JSON instruction. */
  lemma VariantCarriesText(a: string, b: string, instruction: string, targetInfo: string, text: string)
    requires Renders(a, TemplateKeys) && Renders(b, TemplateKeys)
    ensures Renders(a + "{text}" + b, TemplateKeys)
    ensures var args := TemplateArgs(instruction, targetInfo, text);
      && Render(a, args).Some? && Render(b, args).Some?
      && Variant(a + "{text}" + b, instruction, targetInfo, text)
         == Render(a, args).value + text + Render(b, args).value + JsonSuffix
  {
    var args := TemplateArgs(instruction, targetInfo, text);
    RenderDefined(a, args);
    RenderDefined(b, args);
    RenderTextField(args);
    RenderAround(a, "{text}", b, text, args);
    RenderDefined(a + "{text}" + b, args);
  }

  /** The suffix carries literal doubled braces: it is never passed through str.format. */
  lemma SuffixKeepsDoubledBraces()
    ensures OccursAt(JsonSuffix, "{{", |JsonIntro|)
    ensures OccursAt(JsonSuffix, "}}", |JsonSuffix| - 2)
  {
    assert JsonSuffix[|JsonIntro|..|JsonIntro| + 2] == "{{";
    assert JsonSuffix[|JsonSuffix| - 2..] == "}}";
  }

  function ScoreOf(o: VariantOutcome): nat
    requires o.VariantReplied?
  {
    Score(o.obj)
  }

  predicate AnyReplied(outs: seq<VariantOutcome>) {
    exists k :: 0 <= k < |outs| && outs[k].VariantReplied?
  }

  /** The score the loop compares for each variant: a reply's score, or -1
      (the initial best_score, below every score) for a failure, which the
      loop skips. */
  function Tenths(outs: seq<VariantOutcome>): seq<int> {
    seq(|outs|, k requires 0 <= k < |outs| => if outs[k].VariantReplied? then ScoreOf(outs[k]) else -1)
  }

  /** The running maximum starting from -1 that moves only on a strictly
      greater value: the first index holding the largest non-negative value. */
  function BestOf(xs: seq<int>): (r: Option<nat>)
    ensures r.None? <==> forall k :: 0 <= k < |xs| ==> xs[k] < 0
    ensures r.Some? ==> r.value < |xs| && xs[r.value] >= 0
    ensures r.Some? ==> forall j :: 0 <= j < |xs| ==> xs[j] <= xs[r.value]
    ensures r.Some? ==> forall j :: 0 <= j < r.value ==> xs[j] < xs[r.value]
  {
    if xs == [] then None
    else
      var init := xs[..|xs| - 1];
      var b := BestOf(init);
      var last := xs[|xs| - 1];
      assert forall j :: 0 <= j < |init| ==> init[j] == xs[j];
      if last > (if b.None? then -1 else init[b.value]) then Some(|xs| - 1) else b
  }

  /** The first replied variant with the highest score: "replace only on a
      strictly greater score", with best_score starting below every score. */
  function BestIndex(outs: seq<VariantOutcome>): (r: Option<nat>)
    ensures r.None? <==> !AnyReplied(outs)
    ensures r.Some? ==> r.value < |outs| && outs[r.value].VariantReplied?
    ensures r.Some? ==> forall j :: 0 <= j < |outs| && outs[j].VariantReplied? ==>
      ScoreOf(outs[j]) <= ScoreOf(outs[r.value])
    ensures r.Some? ==> forall j :: 0 <= j < r.value && outs[j].VariantReplied? ==>
      ScoreOf(outs[j]) < ScoreOf(outs[r.value])
  {
    var xs := Tenths(outs);
    assert forall k :: 0 <= k < |outs| ==> xs[k] == if outs[k].VariantReplied? then ScoreOf(outs[k]) else -1;
    BestOf(xs)
  }

  /** Variant j ends the loop: its score reaches the threshold, or it failed
      after some earlier variant had replied. */
  predicate StopsAt(outs: seq<VariantOutcome>, j: nat)
    requires j < |outs|
  {
    match outs[j]
    case VariantReplied(obj) => Score(obj) >= EarlyStopTenths
    case VariantFailed => AnyReplied(outs[..j])
  }

  /** How many of the first n variants are called, counting from `from`: all
      up to and including the first that ends the loop. */
  function CallsFrom(outs: seq<VariantOutcome>, n: nat, from: nat): (k: nat)
    requires n <= |outs| && from <= n
    ensures from <= k <= n
    ensures from < n ==> from < k
    decreases n - from
  {
    if from == n then n
    else if StopsAt(outs, from) then from + 1
    else CallsFrom(outs, n, from + 1)
  }

  /** How many of the first n variants the loop calls: at most n, and at
      least one when there is any. */
  function Calls(outs: seq<VariantOutcome>, n: nat): (k: nat)
    requires n <= |outs|
    ensures k <= n
    ensures 0 < n ==> 0 < k
  {
    CallsFrom(outs, n, 0)
  }

  /** Every variant called before the last one let the loop go on, and
      the loop ended early only because the last one stopped it. */
  lemma {:induction false} CallsFromStops(outs: seq<VariantOutcome>, n: nat, from: nat)
    requires n <= |outs| && from <= n
    ensures var k := CallsFrom(outs, n, from);
      && (forall j :: from <= j < k - 1 ==> !StopsAt(outs, j))
      && (k < n ==> StopsAt(outs, k - 1))
    decreases n - from
  {
    if from < n && !StopsAt(outs, from) {
      CallsFromStops(outs, n, from + 1);
    }
  }

  /** The loop ends right after the first variant that stops it. */
  lemma {:induction false} CallsStopAt(outs: seq<VariantOutcome>, n: nat, from: nat, i: nat)
    requires from <= i < n <= |outs|
    requires forall j :: from <= j < i ==> !StopsAt(outs, j)
    requires StopsAt(outs, i)
    ensures CallsFrom(outs, n, from) == i + 1
    decreases i - from
  {
    if from < i {
      CallsStopAt(outs, n, from + 1, i);
    }
  }

  /** Without a stopping variant every variant is called. */
  lemma {:induction false} CallsAll(outs: seq<VariantOutcome>, n: nat, from: nat)
    requires from <= n <= |outs|
    requires forall j :: from <= j < n ==> !StopsAt(outs, j)
    ensures CallsFrom(outs, n, from) == n
    decreases n - from
  {
    if from < n {
      CallsAll(outs, n, from + 1);
    }
  }

  /** The item's result after the loop, from the variants that were called. */
  function Outcome(id: string, called: seq<VariantOutcome>, n: nat): (d: ExtractedData)
    ensures d.reviewId == id
    ensures 0.0 <= d.confidence <= 1.0
    ensures d.promptUsed == FailedLabel <==> !AnyReplied(called)
  {
    match BestIndex(called)
    case None => ErrorResult(id, "All variants failed", FailedLabel)
    case Some(b) =>
      assert BestOfLabel(n)[11] == 'b';
      FromObject(id, called[b].obj, ScoreOf(called[b]) as real / 10.0, BestOfLabel(n))
  }

  /** `process`: the attempt loop and its finalisation. */
  method Process(c: Config, review: Review, instrPicks: seq<nat>, targetPicks: seq<nat>,
                 outs: seq<VariantOutcome>)
    returns (result: ExtractedData, calls: nat)
    requires PicksValid(c, instrPicks, targetPicks)
    requires |outs| >= c.maxPrompts
    ensures calls == Calls(outs, c.maxPrompts)
    ensures result == Outcome(review.reviewId, outs[..calls], c.maxPrompts)
  {
    var prompts := GenerateVariants(c, review.reviewText, instrPicks, targetPicks);
    var bestScore: int := -1;
    var bestResponse: Option<Obj> := None;
    calls := 0;
    var i := 0;
    TracksNone(outs);
    while i < |prompts|
      invariant 0 <= i <= |prompts| && calls == i
      invariant Calls(outs, c.maxPrompts) == CallsFrom(outs, c.maxPrompts, i)
      invariant Tracks(outs[..i], bestResponse, bestScore)
    {
      TracksReplied(outs[..i], bestResponse, bestScore);
      ghost var response0, score0 := bestResponse, bestScore;
      // The source sleeps 7 seconds here before every call but the first.
      calls := calls + 1;
      match outs[i] {
        case VariantReplied(obj) =>
          var score := Score(obj);
          if score > bestScore {
            bestScore := score;
            bestResponse := Some(obj);
          }
          TracksNext(outs, i, response0, score0, bestResponse, bestScore);
          if score >= EarlyStopTenths {
            break;
          }
        case VariantFailed =>
          TracksNext(outs, i, response0, score0, bestResponse, bestScore);
          if bestResponse.Some? {
            break;
          }
      }
      i := i + 1;
    }
    FinalResult(review.reviewId, outs[..calls], c.maxPrompts, bestResponse, bestScore);
    if bestResponse.None? {
      result := ErrorResult(review.reviewId, "All variants failed", FailedLabel);
    } else {
      result := FromObject(review.reviewId, bestResponse.value, bestScore as real / 10.0, BestOfLabel(|prompts|));
    }
  }

  /** The loop's running best agrees with BestIndex over the variants called so far. */
  ghost predicate Tracks(called: seq<VariantOutcome>, bestResponse: Option<Obj>, bestScore: int) {
    match BestIndex(called)
    case None => bestResponse.None? && bestScore == -1
    case Some(b) => bestResponse == Some(called[b].obj) && bestScore == ScoreOf(called[b])
  }

  /** Before the loop nothing is called and there is no best yet. */
  lemma TracksNone(outs: seq<VariantOutcome>)
    ensures Tracks(outs[..0], None, -1)
  {
    assert outs[..0] == [];
  }

  /** The finalisation the loop performs agrees with Outcome. */
  lemma FinalResult(id: string, called: seq<VariantOutcome>, n: nat, bestResponse: Option<Obj>, bestScore: int)
    requires Tracks(called, bestResponse, bestScore)
    ensures bestResponse.None? ==> Outcome(id, called, n) == ErrorResult(id, "All variants failed", FailedLabel)
    ensures bestResponse.Some? ==>
      Outcome(id, called, n) == FromObject(id, bestResponse.value, bestScore as real / 10.0, BestOfLabel(n))
  {
  }

  /** The running best exists exactly when some called variant replied. */
  lemma TracksReplied(called: seq<VariantOutcome>, bestResponse: Option<Obj>, bestScore: int)
    requires Tracks(called, bestResponse, bestScore)
    ensures AnyReplied(called) <==> bestResponse.Some?
  {
  }

  /** The loop body keeps Tracks: the running best moves only on a strictly greater score. */
  lemma TracksNext(outs: seq<VariantOutcome>, i: nat, bestResponse: Option<Obj>, bestScore: int,
                   bestResponse': Option<Obj>, bestScore': int)
    requires i < |outs| && Tracks(outs[..i], bestResponse, bestScore)
    requires outs[i].VariantReplied? && Score(outs[i].obj) > bestScore ==>
      bestResponse' == Some(outs[i].obj) && bestScore' == Score(outs[i].obj)
    requires !(outs[i].VariantReplied? && Score(outs[i].obj) > bestScore) ==>
      bestResponse' == bestResponse && bestScore' == bestScore
    ensures Tracks(outs[..i + 1], bestResponse', bestScore')
  {
    assert outs[..i + 1] == outs[..i] + [outs[i]];
    BestIndexSnoc(outs[..i], outs[i]);
  }

  /** One more variant: BestIndex moves to it only on a strictly greater score. */
  lemma BestIndexSnoc(called: seq<VariantOutcome>, o: VariantOutcome)
    ensures BestIndex(called + [o])
         == if o.VariantReplied? && (BestIndex(called).None? || ScoreOf(o) > ScoreOf(called[BestIndex(called).value]))
            then Some(|called|) else BestIndex(called)
  {
    var t := if o.VariantReplied? then ScoreOf(o) else -1;
    TenthsSnoc(called, o);
    BestOfSnoc(Tenths(called), t);
  }

  lemma TenthsSnoc(called: seq<VariantOutcome>, o: VariantOutcome)
    ensures Tenths(called + [o]) == Tenths(called) + [if o.VariantReplied? then ScoreOf(o) else -1]
  {
    assert forall k :: 0 <= k < |called| ==> (called + [o])[k] == called[k];
  }

  lemma BestOfSnoc(xs: seq<int>, x: int)
    ensures BestOf(xs + [x])
         == if x > (if BestOf(xs).None? then -1 else xs[BestOf(xs).value]) then Some(|xs|) else BestOf(xs)
  {
    var ys := xs + [x];
    assert ys[..|ys| - 1] == xs;
    assert ys[|ys| - 1] == x;
  }

  /** The reported confidence is the best score among the called variants,
      in tenths, and it is labelled with the number of variants. */
  lemma OutcomeIsBest(id: string, called: seq<VariantOutcome>, n: nat, j: nat)
    requires j < |called| && called[j].VariantReplied?
    ensures Outcome(id, called, n).promptUsed == BestOfLabel(n)
    ensures Score(called[j].obj) as real / 10.0 <= Outcome(id, called, n).confidence
  {
    var b := BestIndex(called).value;
    assert ScoreOf(called[j]) <= ScoreOf(called[b]);
  }

  /** Since best_score starts at -1, the first variant that replies becomes
      the best, whatever its score. */
  lemma FirstReplyBecomesBest(called: seq<VariantOutcome>, i: nat)
    requires i < |called| && called[i].VariantReplied?
    requires forall j :: 0 <= j < i ==> called[j].VariantFailed?
    ensures BestIndex(called[..i + 1]) == Some(i)
  {
    var prefix := called[..i + 1];
    assert prefix[i] == called[i];
    assert forall j :: 0 <= j < i ==> prefix[j] == called[j];
  }

  /** When every variant fails, all of them are called and the sentinel is returned. */
  lemma AllFailedSentinel(id: string, outs: seq<VariantOutcome>, n: nat)
    requires n <= |outs|
    requires forall j :: 0 <= j < n ==> outs[j].VariantFailed?
    ensures Calls(outs, n) == n
    ensures Outcome(id, outs[..n], n) == ExtractedData(id, "error", "error", "All variants failed", 0.0, FailedLabel)
  {
    forall j | 0 <= j < n
      ensures !StopsAt(outs, j)
    {
      assert !AnyReplied(outs[..j]) by {
        assert forall k :: 0 <= k < j ==> outs[..j][k] == outs[k];
      }
    }
    CallsAll(outs, n, 0);
    assert !AnyReplied(outs[..n]) by {
      assert forall k :: 0 <= k < n ==> outs[..n][k] == outs[k];
    }
  }

  /** A variant scoring 9 tenths or more ends the loop and becomes the result
      unless an earlier variant already scored higher. */
  lemma EarlyStop(id: string, outs: seq<VariantOutcome>, n: nat, i: nat)
    requires i < n <= |outs|
    requires forall j :: 0 <= j < i ==> !StopsAt(outs, j)
    requires outs[i].VariantReplied? && Score(outs[i].obj) >= EarlyStopTenths
    ensures Calls(outs, n) == i + 1
    ensures EarlyStopTenths as real / 10.0 <= Outcome(id, outs[..i + 1], n).confidence
  {
    CallsStopAt(outs, n, 0, i);
    OutcomeIsBest(id, outs[..i + 1], n, i);
  }

  /** A failure after a usable answer ends the loop even when later variants
      would have scored higher: the first answer, scoring 5, is kept. */
  lemma FailureAfterBestStops(id: string, first: Obj, later: Obj)
    requires Score(first) == 5 && Score(later) == 10
    ensures var outs := [VariantReplied(first), VariantFailed, VariantReplied(later)];
      && Calls(outs, 3) == 2
      && Outcome(id, outs[..2], 3) == FromObject(id, first, 0.5, BestOfLabel(3))
  {
    var outs := [VariantReplied(first), VariantFailed, VariantReplied(later)];
    assert !StopsAt(outs, 0);
    assert AnyReplied(outs[..1]) by { assert outs[..1][0] == outs[0]; }
    CallsStopAt(outs, 3, 0, 1);
    assert outs[..2] == [VariantReplied(first), VariantFailed];
    assert BestIndex(outs[..2]) == Some(0) by {
      assert outs[..2][..1] == [VariantReplied(first)];
    }
  }

  /** Scores 5, 9, 10: the loop stops after the second call and reports 0.9. */
  lemma EarlyStopExample(id: string, o1: Obj, o2: Obj, o3: Obj)
    requires Score(o1) == 5 && Score(o2) == 9 && Score(o3) == 10
    ensures var outs := [VariantReplied(o1), VariantReplied(o2), VariantReplied(o3)];
      && Calls(outs, 3) == 2
      && Outcome(id, outs[..2], 3) == FromObject(id, o2, 0.9, BestOfLabel(3))
  {
    var outs := [VariantReplied(o1), VariantReplied(o2), VariantReplied(o3)];
    assert !StopsAt(outs, 0);
    CallsStopAt(outs, 3, 0, 1);
    assert outs[..2] == [VariantReplied(o1), VariantReplied(o2)];
    assert BestIndex(outs[..2]) == Some(1) by {
      assert outs[..2][..1] == [VariantReplied(o1)];
    }
  }

  /** Equal scores keep the earlier answer. */
  lemma TieKeepsEarliest(id: string, o1: Obj, o2: Obj)
    requires Score(o1) == Score(o2) && Score(o1) < EarlyStopTenths
    ensures var outs := [VariantReplied(o1), VariantReplied(o2)];
      && Calls(outs, 2) == 2
      && Outcome(id, outs, 2).product == Get(o1, "product", "unknown")
  {
    var outs := [VariantReplied(o1), VariantReplied(o2)];
    assert !StopsAt(outs, 0) && !StopsAt(outs, 1);
    CallsAll(outs, 2, 0);
    assert BestIndex(outs) == Some(0) by {
      assert outs[..1] == [VariantReplied(o1)];
    }
  }
}
