/** `_extract_json` (the same body appears in src/autoprompt.py and
    src/baseline.py): strip the reply, prefer the `{...}` inside a fenced
    code block, cut the greedy span from the first '{' to the last '}', and
    hand what is left to json.loads, which is a parameter here. */
module JsonSpan {
  import opened Wrappers
  import opened Text
  import opened Records

  const Fence: string := "```"

  /** The first index of c in s. */
  function FirstIndex(s: string, c: char): (r: Option<nat>)
    ensures r.Some? ==> r.value < |s| && s[r.value] == c
    ensures r.Some? ==> forall k :: 0 <= k < r.value ==> s[k] != c
    ensures r.None? ==> Lacks(s, c)
  {
    if s == [] then None
    else if s[0] == c then Some(0)
    else
      match FirstIndex(s[1..], c)
      case None => None
      case Some(i) => Some(i + 1)
  }

  /** The last index of c in s. */
  function LastIndex(s: string, c: char): (r: Option<nat>)
    ensures r.Some? ==> r.value < |s| && s[r.value] == c
    ensures r.Some? ==> forall k :: r.value < k < |s| ==> s[k] != c
    ensures r.None? ==> Lacks(s, c)
  {
    if s == [] then None
    else if s[|s| - 1] == c then Some(|s| - 1)
    else LastIndex(s[..|s| - 1], c)
  }

  /** Some '{' is followed, later, by some '}'. */
  predicate HasBracePair(s: string) {
    exists i, j :: 0 <= i < j < |s| && s[i] == '{' && s[j] == '}'
  }

  /** re.search(r'\{.*\}', s, re.DOTALL).group(0) when it matches, else s. */
  function GreedySpan(s: string): (r: string)
    ensures HasBracePair(s) ==> |r| >= 2 && r[0] == '{' && r[|r| - 1] == '}'
    ensures !HasBracePair(s) ==> r == s
    ensures |r| <= |s|
  {
    match (FirstIndex(s, '{'), LastIndex(s, '}'))
    case (Some(i), Some(j)) => if i < j then s[i..j + 1] else s
    case _ => s
  }

  /** The span runs exactly from the first '{' to the last '}'. */
  lemma GreedySpanIs(s: string, i: nat, j: nat)
    requires i < j < |s| && s[i] == '{' && s[j] == '}'
    requires forall k :: 0 <= k < i ==> s[k] != '{'
    requires forall k :: j < k < |s| ==> s[k] != '}'
    ensures GreedySpan(s) == s[i..j + 1]
  {
    assert FirstIndex(s, '{') == Some(i);
    assert LastIndex(s, '}') == Some(j);
  }

  /** Cutting the span a second time changes nothing. */
  lemma GreedySpanIdempotent(s: string)
    ensures GreedySpan(GreedySpan(s)) == GreedySpan(s)
  {
    var r := GreedySpan(s);
    if HasBracePair(s) {
      GreedySpanIs(r, 0, |r| - 1);
      assert r[0..|r|] == r;
    }
  }

  /** Prose without braces before and after an object is cut away. */
  lemma GreedySpanAround(pre: string, obj: string, post: string)
    requires Lacks(pre, '{') && Lacks(post, '}')
    requires |obj| >= 2 && obj[0] == '{' && obj[|obj| - 1] == '}'
    ensures GreedySpan(pre + obj + post) == obj
  {
    var s := pre + obj + post;
    var i, j := |pre|, |pre| + |obj| - 1;
    assert forall k :: 0 <= k < i ==> s[k] == pre[k];
    assert forall k :: j < k < |s| ==> s[k] == post[k - j - 1];
    assert s[i] == '{' && s[j] == '}';
    GreedySpanIs(s, i, j);
    assert s[i..j + 1] == obj;
  }

  /** Python's \s* from index i: the end of the whitespace run. */
  function SkipSpace(s: string, i: nat): (j: nat)
    requires i <= |s|
    ensures i <= j <= |s|
    ensures forall k :: i <= k < j ==> IsSpace(s[k])
    ensures j < |s| ==> !IsSpace(s[j])
    decreases |s| - i
  {
    if i < |s| && IsSpace(s[i]) then SkipSpace(s, i + 1) else i
  }

  predicate FenceAt(s: string, p: nat) {
    OccursAt(s, Fence, p)
  }

  /** For r'```(?:json)?\s*(\{.*?\})\s*```' tried at position p: the index
      of the '{' that opens the group, if the part before `.*?` matches.
      The optional "json" is tried first; when it is present the other
      branch cannot match, since \s* then meets 'j' instead of '{'. */
  function OpenBrace(s: string, p: nat): Option<nat> {
    if !FenceAt(s, p) then None
    else
      var a := if OccursAt(s, "json", p + 3) then p + 7 else p + 3;
      var q := SkipSpace(s, a);
      if q < |s| && s[q] == '{' then Some(q) else None
  }

  /** A '}' at k can end the group: only whitespace stands between it and a
      closing fence. */
  predicate Closes(s: string, k: nat) {
    k < |s| && s[k] == '}' && FenceAt(s, SkipSpace(s, k + 1))
  }

  /** The lazy `.*?`: the first index at or after `from` where the group can end. */
  function FirstCloser(s: string, from: nat): (r: Option<nat>)
    ensures r.Some? ==> from <= r.value < |s| && Closes(s, r.value)
    ensures r.Some? ==> forall k :: from <= k < r.value ==> !Closes(s, k)
    ensures r.None? ==> forall k :: from <= k ==> !Closes(s, k)
    decreases |s| - from
  {
    if from >= |s| then None
    else if Closes(s, from) then Some(from)
    else FirstCloser(s, from + 1)
  }

  /** The group's bounds [q, e) when the pattern matches at position p. */
  function MatchAt(s: string, p: nat): (r: Option<(nat, nat)>)
    ensures r.Some? ==> r.value.0 < r.value.1 <= |s|
    ensures r.Some? ==> s[r.value.0] == '{' && s[r.value.1 - 1] == '}'
  {
    match OpenBrace(s, p)
    case None => None
    case Some(q) =>
      match FirstCloser(s, q + 1)
      case None => None
      case Some(k) => Some((q, k + 1))
  }

  /** re.search: the match at the leftmost position p >= start. */
  function FenceSearch(s: string, start: nat): (r: Option<(nat, nat)>)
    ensures r.Some? ==> r.value.0 < r.value.1 <= |s|
    ensures r.Some? ==> s[r.value.0] == '{' && s[r.value.1 - 1] == '}'
    decreases |s| - start
  {
    if start >= |s| then None
    else if MatchAt(s, start).Some? then MatchAt(s, start)
    else FenceSearch(s, start + 1)
  }

  /** The group of the first fenced block, when there is one. */
  function FencedBlock(s: string): (r: Option<string>)
    ensures r.Some? ==> |r.value| >= 2 && r.value[0] == '{' && r.value[|r.value| - 1] == '}'
  {
    match FenceSearch(s, 0)
    case None => None
    case Some((q, e)) => Some(s[q..e])
  }

  /** The text `_extract_json` gives to json.loads. */
  function Candidate(raw: string): (c: string)
    ensures |c| <= |raw|
    ensures FencedBlock(Strip(raw)).None? && !HasBracePair(Strip(raw)) ==> c == Strip(raw)
    ensures FencedBlock(Strip(raw)).None? ==> c == GreedySpan(Strip(raw))
    ensures FencedBlock(Strip(raw)).Some? || HasBracePair(Strip(raw)) ==>
      |c| >= 2 && c[0] == '{' && c[|c| - 1] == '}'
  {
    Cut(Strip(raw))
  }

  /** The cut made in the stripped reply t: the greedy span of the fenced
      block's group when there is one, else of t itself. */
  function Cut(t: string): (c: string)
    ensures |c| <= |t|
    ensures FencedBlock(t).None? ==> c == GreedySpan(t)
    ensures FencedBlock(t).Some? || HasBracePair(t) ==> |c| >= 2 && c[0] == '{' && c[|c| - 1] == '}'
  {
    FencedBlockShorter(t);
    match FencedBlock(t)
    case Some(b) => GreedySpan(b)
    case None => GreedySpan(t)
  }

  lemma FencedBlockShorter(t: string)
    ensures FencedBlock(t).Some? ==> |FencedBlock(t).value| <= |t|
  {
    var r := FenceSearch(t, 0);
    assert r.Some? ==> r.value.1 <= |t|;
  }

  /** `_extract_json` with json.loads as the decoder: the fenced block's
      group when there is one, else the stripped reply when it holds no
      '{' before a '}'. */
  function ExtractJson(raw: string, decode: Decoder): (p: Parsed)
    ensures FencedBlock(Strip(raw)).Some? ==> p == decode(FencedBlock(Strip(raw)).value)
    ensures Lacks(Strip(raw), '{') ==> p == decode(Strip(raw))
  {
    var t := Strip(raw);
    LacksNoBlock(t);
    if FencedBlock(t).Some? then
      FencedBlockWins(raw);
      decode(Candidate(raw))
    else
      decode(Candidate(raw))
  }

  /** Without a '{' there is neither a fenced object nor a brace pair. */
  lemma LacksNoBlock(s: string)
    ensures Lacks(s, '{') ==> FencedBlock(s).None? && !HasBracePair(s)
  {
    var r := FenceSearch(s, 0);
    assert r.Some? ==> s[r.value.0] == '{';
  }

  /** A fenced block wins: its group is the candidate as it stands. */
  lemma FencedBlockWins(raw: string)
    requires FencedBlock(Strip(raw)).Some?
    ensures Candidate(raw) == FencedBlock(Strip(raw)).value
  {
    var b := FencedBlock(Strip(raw)).value;
    GreedySpanIs(b, 0, |b| - 1);
    assert b[0..|b|] == b;
  }

  /** Text without a backtick holds no fenced block. */
  lemma {:induction false} NoFenceWithoutBacktick(s: string, start: nat)
    requires Lacks(s, '`')
    ensures FenceSearch(s, start) == None
    decreases |s| - start
  {
    if start < |s| {
      assert !FenceAt(s, start) by {
        if start + 3 <= |s| {
          assert s[start..start + 3][0] == s[start];
        }
      }
      NoFenceWithoutBacktick(s, start + 1);
    }
  }

  /** The opening part of the pattern, on a string laid out by index. */
  lemma OpensAt(s: string, a: nat, q: nat)
    requires 3 <= a <= q < |s| && FenceAt(s, 0)
    requires a == if OccursAt(s, "json", 3) then 7 else 3
    requires forall k :: a <= k < q ==> IsSpace(s[k])
    requires s[q] == '{'
    ensures OpenBrace(s, 0) == Some(q)
  {
    assert SkipSpace(s, a) == q;
  }

  /** The lazy group ends at e when e is the only '}' that whitespace and a
      fence follow: there is no backtick between q and e. */
  lemma ClosesAt(s: string, q: nat, e: nat, f: nat)
    requires q < e < f && f + 3 <= |s| && FenceAt(s, f)
    requires s[e] == '}'
    requires forall k :: q <= k <= e ==> s[k] != '`'
    requires forall k :: e < k < f ==> IsSpace(s[k])
    ensures FirstCloser(s, q + 1) == Some(e)
  {
    assert s[f..f + 3][0] == s[f];
    assert SkipSpace(s, e + 1) == f;
    assert Closes(s, e);
    forall k | q + 1 <= k < e
      ensures !Closes(s, k)
    {
      if s[k] == '}' {
        var j := SkipSpace(s, k + 1);
        assert j <= e;
        if j + 3 <= |s| {
          assert s[j..j + 3][0] == s[j];
        }
      }
    }
  }

  /** The opening half of a fenced payload, index by index. */
  lemma HeadLayout(tag: string, ws1: string, rest: string)
    requires tag == "" || tag == "json"
    requires AllSpace(ws1) && |rest| > 0 && rest[0] == '{'
    ensures var s := Fence + tag + ws1 + rest;
      && FenceAt(s, 0)
      && (3 + |tag| == if OccursAt(s, "json", 3) then 7 else 3)
      && (forall k :: 3 + |tag| <= k < 3 + |tag| + |ws1| ==> IsSpace(s[k]))
      && s[3 + |tag| + |ws1|..] == rest
  {
    var head := Fence + tag + ws1;
    var s := head + rest;
    assert s[0..3] == head[0..3] == Fence;
    assert forall k :: 3 + |tag| <= k < |head| ==> s[k] == head[k] == ws1[k - 3 - |tag|];
    if tag == "json" {
      assert s[3..7] == head[3..7] == "json";
    } else {
      assert s[3] == if ws1 == [] then rest[0] else ws1[0];
      if 7 <= |s| {
        assert s[3..7][0] == s[3];
      }
    }
    assert s[|head|..] == rest;
  }

  /** The closing half of a fenced payload, index by index, where it starts at q. */
  lemma TailLayout(s: string, q: nat, obj: string, ws2: string)
    requires AllSpace(ws2) && Lacks(obj, '`') && |obj| >= 1
    requires q <= |s| && s[q..] == obj + ws2 + Fence
    ensures FenceAt(s, q + |obj| + |ws2|)
    ensures forall k :: q <= k < q + |obj| ==> s[k] != '`'
    ensures forall k :: q + |obj| <= k < q + |obj| + |ws2| ==> IsSpace(s[k])
    ensures s[q + |obj| - 1] == obj[|obj| - 1]
    ensures s[q..q + |obj|] == obj
  {
    var t := obj + ws2 + Fence;
    var f := q + |obj| + |ws2|;
    assert forall k :: q <= k < |s| ==> s[k] == t[k - q];
    assert s[f..f + 3] == t[|obj| + |ws2|..] == Fence;
    assert s[q..q + |obj|] == t[..|obj|] == obj;
  }

  /** A match at position 0 is the leftmost one. */
  lemma MatchesAtStart(s: string, q: nat, e: nat)
    requires OpenBrace(s, 0) == Some(q) && FirstCloser(s, q + 1) == Some(e)
    ensures FencedBlock(s) == Some(s[q..e + 1])
  {
    assert MatchAt(s, 0) == Some((q, e + 1));
  }

  /** The pattern applied to a string laid out by index: the object is s[q..n]. */
  lemma LaidOut(s: string, a: nat, q: nat, n: nat, f: nat)
    requires 3 <= a <= q && q + 1 < n <= f && f + 3 <= |s| && FenceAt(s, 0) && FenceAt(s, f)
    requires a == if OccursAt(s, "json", 3) then 7 else 3
    requires forall k :: a <= k < q ==> IsSpace(s[k])
    requires s[q] == '{' && s[n - 1] == '}'
    requires forall k :: q <= k < n ==> s[k] != '`'
    requires forall k :: n <= k < f ==> IsSpace(s[k])
    ensures FencedBlock(s) == Some(s[q..n])
  {
    var e := n - 1;
    OpensAt(s, a, q);
    ClosesAt(s, q, e, f);
    MatchesAtStart(s, q, e);
    assert e + 1 == n;
  }

  lemma Regroup3(a: string, b: string, c: string, d: string)
    ensures a + (b + c + d) == a + b + c + d
  {
  }

  /** A string laid out as fence, optional tag, whitespace, '{' ... '}',
      whitespace, fence has exactly that object as its fenced block. */
  lemma FencedBlockOf(tag: string, ws1: string, obj: string, ws2: string)
    requires tag == "" || tag == "json"
    requires AllSpace(ws1) && AllSpace(ws2)
    requires |obj| >= 2 && obj[0] == '{' && obj[|obj| - 1] == '}' && Lacks(obj, '`')
    ensures FencedBlock(Fence + tag + ws1 + obj + ws2 + Fence) == Some(obj)
  {
    Regroup3(Fence + tag + ws1, obj, ws2, Fence);
    FencedBlockIn(Fence + tag + ws1 + (obj + ws2 + Fence), tag, ws1, obj, ws2);
  }

  lemma FencedBlockIn(s: string, tag: string, ws1: string, obj: string, ws2: string)
    requires tag == "" || tag == "json"
    requires AllSpace(ws1) && AllSpace(ws2)
    requires |obj| >= 2 && obj[0] == '{' && obj[|obj| - 1] == '}' && Lacks(obj, '`')
    requires s == Fence + tag + ws1 + (obj + ws2 + Fence)
    ensures FencedBlock(s) == Some(obj)
  {
    var q: nat := 3 + |tag| + |ws1|;
    HeadLayout(tag, ws1, obj + ws2 + Fence);
    TailLayout(s, q, obj, ws2);
    FencedBlockAt(s, 3 + |tag|, q, obj, q + |obj| + |ws2|);
  }

  /** LaidOut, with the group named. */
  lemma FencedBlockAt(s: string, a: nat, q: nat, obj: string, f: nat)
    requires 3 <= a <= q && |obj| >= 2 && q + |obj| <= f && f + 3 <= |s|
    requires FenceAt(s, 0) && FenceAt(s, f)
    requires a == if OccursAt(s, "json", 3) then 7 else 3
    requires forall k :: a <= k < q ==> IsSpace(s[k])
    requires s[q..q + |obj|] == obj && obj[0] == '{' && obj[|obj| - 1] == '}'
    requires forall k :: q <= k < q + |obj| ==> s[k] != '`'
    requires forall k :: q + |obj| <= k < f ==> IsSpace(s[k])
    ensures FencedBlock(s) == Some(obj)
  {
    var n := q + |obj|;
    assert s[q] == obj[0] && s[n - 1] == obj[|obj| - 1];
    LaidOut(s, a, q, n, f);
    assert FencedBlock(s).value == obj;
  }

  /** A bare object is its own candidate. */
  lemma BareCandidate(obj: string)
    requires |obj| >= 2 && obj[0] == '{' && obj[|obj| - 1] == '}' && Lacks(obj, '`')
    ensures Candidate(obj) == obj
  {
    StripBare(obj);
    NoFenceWithoutBacktick(obj, 0);
    assert FencedBlock(obj) == None;
    GreedySpanWhole(obj);
  }

  lemma GreedySpanWhole(s: string)
    requires |s| >= 2 && s[0] == '{' && s[|s| - 1] == '}'
    ensures GreedySpan(s) == s
  {
    GreedySpanIs(s, 0, |s| - 1);
    assert s[0..|s|] == s;
  }

  /** A payload fenced as ```json ... ``` (or a bare ```) gives the same
      candidate as the payload on its own. */
  lemma FencedLikeBare(tag: string, ws1: string, obj: string, ws2: string)
    requires tag == "" || tag == "json"
    requires AllSpace(ws1) && AllSpace(ws2)
    requires |obj| >= 2 && obj[0] == '{' && obj[|obj| - 1] == '}' && Lacks(obj, '`')
    ensures Candidate(Fence + tag + ws1 + obj + ws2 + Fence) == Candidate(obj) == obj
  {
    var s := Fence + tag + ws1 + obj + ws2 + Fence;
    FencedBlockOf(tag, ws1, obj, ws2);
    assert s[0] == '`' && s[|s| - 1] == '`';
    StripBare(s);
    FencedBlockWins(s);
    BareCandidate(obj);
  }
}
