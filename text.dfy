/** ASCII string helpers standing in for Python's str.lower, str.strip,
    the `in` substring test, slicing s[:n] and str(n) of a natural number. */
module Text {

  /** Python's str.isspace restricted to ASCII: space, \t, \n, \v, \f, \r
      and the four separators \x1c..\x1f. */
  predicate IsSpace(c: char) {
    c == ' ' || ('\t' <= c <= '\r') || ('\U{1C}' <= c <= '\U{1F}')
  }

  predicate AllSpace(s: string) {
    forall k :: 0 <= k < |s| ==> IsSpace(s[k])
  }

  /** No occurrence of character c in s. */
  predicate Lacks(s: string, c: char) {
    forall k :: 0 <= k < |s| ==> s[k] != c
  }

  function LowerChar(c: char): (d: char)
    ensures 'A' <= c <= 'Z' ==> d as int == c as int + 32
    ensures !('A' <= c <= 'Z') ==> d == c
  {
    if 'A' <= c <= 'Z' then (c as int + 32) as char else c
  }

  /** str.lower on ASCII letters; every other character is kept. */
  function Lower(s: string): (r: string)
    ensures |r| == |s|
    ensures forall k :: 0 <= k < |s| ==> r[k] == LowerChar(s[k])
  {
    if s == [] then [] else [LowerChar(s[0])] + Lower(s[1..])
  }

  lemma LowerAppend(a: string, b: string)
    ensures Lower(a + b) == Lower(a) + Lower(b)
  {
    assert forall k :: 0 <= k < |b| ==> (a + b)[|a| + k] == b[k];
  }

  /** Lowering twice is lowering once. */
  lemma LowerIdempotent(s: string)
    ensures Lower(Lower(s)) == Lower(s)
  {
  }

  /** Number of leading whitespace characters. */
  function LeadCount(s: string): (n: nat)
    ensures n <= |s|
    ensures forall k :: 0 <= k < n ==> IsSpace(s[k])
    ensures n < |s| ==> !IsSpace(s[n])
  {
    if s != [] && IsSpace(s[0]) then 1 + LeadCount(s[1..]) else 0
  }

  /** Number of trailing whitespace characters. */
  function TrailCount(s: string): (n: nat)
    ensures n <= |s|
    ensures forall k :: |s| - n <= k < |s| ==> IsSpace(s[k])
    ensures n < |s| ==> !IsSpace(s[|s| - 1 - n])
  {
    if s != [] && IsSpace(s[|s| - 1]) then 1 + TrailCount(s[..|s| - 1]) else 0
  }

  /** str.strip() with no argument: drop leading and trailing whitespace. */
  function Strip(s: string): (r: string)
    ensures r == [] || (!IsSpace(r[0]) && !IsSpace(r[|r| - 1]))
    ensures r == [] ==> AllSpace(s)
    ensures |r| <= |s|
  {
    var t := s[LeadCount(s)..];
    t[..|t| - TrailCount(t)]
  }

  /** Strip takes off exactly the whitespace around a core that has none at its ends. */
  lemma {:induction false} StripAround(pre: string, core: string, post: string)
    requires AllSpace(pre) && AllSpace(post)
    requires core == [] || (!IsSpace(core[0]) && !IsSpace(core[|core| - 1]))
    requires core != [] || post == []
    ensures Strip(pre + core + post) == core
  {
    var s := pre + core + post;
    assert forall k :: 0 <= k < |pre| ==> s[k] == pre[k];
    if core == [] {
      assert s == pre;
      assert LeadCount(s) == |s|;
    } else {
      assert s[|pre|] == core[0];
      var n := LeadCount(s);
      assert n == |pre|;
      var t := s[n..];
      assert t == core + post;
      assert forall k :: 0 <= k < |post| ==> t[|core| + k] == post[k];
      assert t[|core| - 1] == core[|core| - 1];
      var m := TrailCount(t);
      assert m == |post|;
      assert t[..|t| - m] == core;
    }
  }

  /** Stripping twice is stripping once. */
  lemma StripIdempotent(s: string)
    ensures Strip(Strip(s)) == Strip(s)
  {
    StripAround([], Strip(s), []);
    assert [] + Strip(s) + [] == Strip(s);
  }

  /** Text with no whitespace at either end is its own strip. */
  lemma StripBare(s: string)
    requires s != [] && !IsSpace(s[0]) && !IsSpace(s[|s| - 1])
    ensures Strip(s) == s
  {
    StripAround([], s, []);
    assert [] + s + [] == s;
  }

  lemma AllSpaceCat(a: string, b: string)
    requires AllSpace(a) && AllSpace(b)
    ensures AllSpace(a + b)
  {
    assert forall k :: |a| <= k < |a + b| ==> (a + b)[k] == b[k - |a|];
  }

  /** s is its leading whitespace, its strip and its trailing whitespace. */
  lemma StripSplit(s: string) returns (lead: string, trail: string)
    ensures AllSpace(lead) && AllSpace(trail)
    ensures s == lead + Strip(s) + trail
  {
    lead, trail := Lead(s), Trail(s);
    StripParts(s);
  }

  /** The whitespace Strip takes off the front of s. */
  function Lead(s: string): (r: string)
    ensures AllSpace(r)
  {
    s[..LeadCount(s)]
  }

  /** The whitespace Strip takes off the back of s. */
  function Trail(s: string): (r: string)
    ensures AllSpace(r)
  {
    var t := s[LeadCount(s)..];
    t[|t| - TrailCount(t)..]
  }

  lemma StripParts(s: string)
    ensures s == Lead(s) + Strip(s) + Trail(s)
  {
    var n := LeadCount(s);
    var t := s[n..];
    var m := TrailCount(t);
    SplitAt(s, n);
    SplitAt(t, |t| - m);
    Regroup(s[..n], t[..|t| - m], t[|t| - m..], s);
  }

  lemma SplitAt(s: string, i: nat)
    requires i <= |s|
    ensures s == s[..i] + s[i..]
  {
  }

  lemma Regroup(lead: string, core: string, trail: string, s: string)
    requires s == lead + (core + trail)
    ensures s == lead + core + trail
  {
  }

  /** Whitespace added around a string does not change its strip. */
  lemma StripPad(pre: string, s: string, post: string)
    requires AllSpace(pre) && AllSpace(post)
    ensures Strip(pre + s + post) == Strip(s)
  {
    var lead, trail := StripSplit(s);
    var core := Strip(s);
    if core == [] {
      StripPadBlank(pre, s, post);
    } else {
      Regroup5(pre, lead, core, trail, post, s);
      StripPadCore(pre, lead, core, trail, post);
    }
  }

  lemma Regroup5(pre: string, lead: string, core: string, trail: string, post: string, s: string)
    requires s == lead + core + trail
    ensures pre + s + post == (pre + lead) + core + (trail + post)
  {
  }

  lemma StripPadBlank(pre: string, s: string, post: string)
    requires AllSpace(pre) && AllSpace(s) && AllSpace(post)
    ensures Strip(pre + s + post) == []
  {
    AllSpaceCat(pre, s);
    AllSpaceCat(pre + s, post);
    StripAround(pre + s + post, [], []);
    assert pre + s + post + [] + [] == pre + s + post;
  }

  lemma StripPadCore(pre: string, lead: string, core: string, trail: string, post: string)
    requires AllSpace(pre) && AllSpace(lead) && AllSpace(trail) && AllSpace(post)
    requires core != [] && !IsSpace(core[0]) && !IsSpace(core[|core| - 1])
    ensures Strip((pre + lead) + core + (trail + post)) == core
  {
    AllSpaceCat(pre, lead);
    AllSpaceCat(trail, post);
    StripAround(pre + lead, core, trail + post);
  }

  /** `sub` occurs in `s` starting at index i. */
  predicate OccursAt(s: string, sub: string, i: nat) {
    i + |sub| <= |s| && s[i..i + |sub|] == sub
  }

  /** Python's `sub in s` for strings. */
  function Contains(s: string, sub: string): (b: bool)
    ensures b <==> exists i: nat :: OccursAt(s, sub, i)
  {
    if |sub| > |s| then
      assert forall i: nat :: !OccursAt(s, sub, i);
      false
    else if s[..|sub|] == sub then
      assert OccursAt(s, sub, 0);
      true
    else
      var b := Contains(s[1..], sub);
      assert forall i: nat :: OccursAt(s[1..], sub, i) <==> OccursAt(s, sub, i + 1);
      assert !OccursAt(s, sub, 0);
      assert (exists i: nat :: OccursAt(s, sub, i)) ==> exists i: nat :: OccursAt(s[1..], sub, i) by {
        if exists i: nat :: OccursAt(s, sub, i) {
          var i: nat :| OccursAt(s, sub, i);
          assert i > 0;
          assert OccursAt(s[1..], sub, i - 1);
        }
      }
      b
  }

  lemma ContainsAt(s: string, sub: string, i: nat)
    requires OccursAt(s, sub, i)
    ensures Contains(s, sub)
  {
  }

  /** Python's slice s[:n]. */
  function Take(s: string, n: nat): (r: string)
    ensures |r| == if |s| <= n then |s| else n
    ensures r == s[..|r|]
  {
    if |s| <= n then s else s[..n]
  }

  predicate IsDigit(c: char) {
    '0' <= c <= '9'
  }

  function DigitChar(d: nat): (c: char)
    requires d < 10
    ensures IsDigit(c) && c as int - '0' as int == d
  {
    ('0' as int + d) as char
  }

  /** str(n) for a natural number: its decimal digits, no leading zeros. */
  function NatToString(n: nat): (r: string)
    ensures |r| >= 1
    ensures forall k :: 0 <= k < |r| ==> IsDigit(r[k])
    ensures |r| > 1 ==> r[0] != '0'
  {
    if n < 10 then [DigitChar(n)] else NatToString(n / 10) + [DigitChar(n % 10)]
  }

  function DigitValue(c: char): nat
    requires IsDigit(c)
  {
    c as int - '0' as int
  }

  /** The value of a string of decimal digits (reading it back as int() would). */
  function DigitsValue(s: string): nat
    requires forall k :: 0 <= k < |s| ==> IsDigit(s[k])
  {
    if s == [] then 0 else DigitsValue(s[..|s| - 1]) * 10 + DigitValue(s[|s| - 1])
  }

  /** Reading back str(n) gives n, so distinct variant counts give distinct labels. */
  lemma {:induction false} NatToStringRoundTrip(n: nat)
    ensures DigitsValue(NatToString(n)) == n
  {
    if n >= 10 {
      NatToStringRoundTrip(n / 10);
      var r := NatToString(n);
      assert r[..|r| - 1] == NatToString(n / 10);
    }
  }

  lemma NatToStringInjective(m: nat, n: nat)
    requires NatToString(m) == NatToString(n)
    ensures m == n
  {
    NatToStringRoundTrip(m);
    NatToStringRoundTrip(n);
  }
}
