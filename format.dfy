/** The part of Python's str.format that the prompt templates use: `{{` and
    `}}` stand for literal braces and `{name}` is replaced by the keyword
    argument `name`. Any other use of a brace makes str.format raise, which
    the model renders as None. */
module Format {
  import opened Wrappers

  /** A field name the model accepts: non-empty, and free of the characters
      that would start a nested field, a conversion, a format spec, an
      attribute or an index. */
  predicate PlainName(name: string) {
    |name| > 0 && forall k :: 0 <= k < |name| ==> name[k] !in "{}!:.["
  }

  predicate NoBraces(s: string) {
    forall k :: 0 <= k < |s| ==> s[k] != '{' && s[k] != '}'
  }

  lemma NoBracesCat(a: string, b: string)
    requires NoBraces(a) && NoBraces(b)
    ensures NoBraces(a + b)
  {
    assert forall k :: |a| <= k < |a + b| ==> (a + b)[k] == b[k - |a|];
  }

  /** Index of the first '}' at or after i. */
  function CloseAt(t: string, i: nat): (r: Option<nat>)
    requires i <= |t|
    ensures r.Some? ==> i <= r.value < |t| && t[r.value] == '}'
    ensures r.Some? ==> forall k :: i <= k < r.value ==> t[k] != '}'
    ensures r.None? ==> forall k :: i <= k < |t| ==> t[k] != '}'
    decreases |t| - i
  {
    if i == |t| then None else if t[i] == '}' then Some(i) else CloseAt(t, i + 1)
  }

  function Cat(prefix: string, rest: Option<string>): Option<string> {
    match rest
    case Some(s) => Some(prefix + s)
    case None => None
  }

  lemma CloseAtFirst(t: string, i: nat, k: nat)
    requires i <= k < |t| && t[k] == '}'
    requires forall j :: i <= j < k ==> t[j] != '}'
    ensures CloseAt(t, i) == Some(k)
  {
  }

  lemma CatAssoc(x: string, y: string, rest: Option<string>)
    ensures Cat(x, Cat(y, rest)) == Cat(x + y, rest)
  {
    if rest.Some? {
      assert x + (y + rest.value) == (x + y) + rest.value;
    }
  }

  /** template.format(**args), or None where str.format raises. Text
      without braces is copied unchanged. */
  function Render(t: string, args: map<string, string>): (r: Option<string>)
    ensures NoBraces(t) ==> r == Some(t)
    decreases |t|
  {
    if t == [] then Some("")
    else if t[0] == '{' then
      if |t| >= 2 && t[1] == '{' then Cat("{", Render(t[2..], args))
      else
        match CloseAt(t, 1)
        case None => None
        case Some(k) =>
          var name := t[1..k];
          if PlainName(name) && name in args then Cat(args[name], Render(t[k + 1..], args)) else None
    else if t[0] == '}' then
      if |t| >= 2 && t[1] == '}' then Cat("}", Render(t[2..], args)) else None
    else
      assert NoBraces(t) ==> NoBraces(t[1..]);
      assert [t[0]] + t[1..] == t;
      Cat([t[0]], Render(t[1..], args))
  }

  /** The template is well formed for keyword arguments with these names. */
  predicate Renders(t: string, keys: set<string>)
    decreases |t|
  {
    if t == [] then true
    else if t[0] == '{' then
      if |t| >= 2 && t[1] == '{' then Renders(t[2..], keys)
      else
        match CloseAt(t, 1)
        case None => false
        case Some(k) => PlainName(t[1..k]) && t[1..k] in keys && Renders(t[k + 1..], keys)
    else if t[0] == '}' then |t| >= 2 && t[1] == '}' && Renders(t[2..], keys)
    else Renders(t[1..], keys)
  }

  /** Whether str.format succeeds depends on the names passed, not on their values. */
  lemma {:induction false} RenderDefined(t: string, args: map<string, string>)
    ensures Render(t, args).Some? <==> Renders(t, args.Keys)
    decreases |t|
  {
    if t == [] {
    } else if t[0] == '{' {
      if |t| >= 2 && t[1] == '{' {
        RenderDefined(t[2..], args);
      } else if CloseAt(t, 1).Some? {
        RenderDefined(t[CloseAt(t, 1).value + 1..], args);
      }
    } else if t[0] == '}' {
      if |t| >= 2 && t[1] == '}' {
        RenderDefined(t[2..], args);
      }
    } else {
      RenderDefined(t[1..], args);
    }
  }

  /** A template that renders on its own renders the same way in front of any text. */
  lemma {:induction false} RenderAppend(a: string, b: string, args: map<string, string>)
    requires Render(a, args).Some?
    ensures Render(a + b, args) == Cat(Render(a, args).value, Render(b, args))
    decreases |a|
  {
    if a == [] {
      assert a + b == b;
      if Render(b, args).Some? {
        assert "" + Render(b, args).value == Render(b, args).value;
      }
    } else if a[0] == '{' {
      if |a| >= 2 && a[1] == '{' {
        assert (a + b)[2..] == a[2..] + b;
        RenderAppend(a[2..], b, args);
        CatAssoc("{", Render(a[2..], args).value, Render(b, args));
      } else {
        var k := CloseAt(a, 1).value;
        assert CloseAt(a + b, 1) == Some(k) by {
          assert forall j :: 1 <= j <= k ==> (a + b)[j] == a[j];
        }
        assert (a + b)[1..k] == a[1..k];
        assert (a + b)[k + 1..] == a[k + 1..] + b;
        RenderAppend(a[k + 1..], b, args);
        CatAssoc(args[a[1..k]], Render(a[k + 1..], args).value, Render(b, args));
      }
    } else if a[0] == '}' {
      assert (a + b)[2..] == a[2..] + b;
      RenderAppend(a[2..], b, args);
      CatAssoc("}", Render(a[2..], args).value, Render(b, args));
    } else {
      assert (a + b)[1..] == a[1..] + b;
      RenderAppend(a[1..], b, args);
      CatAssoc([a[0]], Render(a[1..], args).value, Render(b, args));
    }
  }

  /** A doubled brace is emitted as one literal brace. */
  lemma RenderEscapes(args: map<string, string>)
    ensures Render("{{", args) == Some("{")
    ensures Render("}}", args) == Some("}")
  {
    assert "{{"[2..] == "";
    assert "}}"[2..] == "";
    assert "{" + "" == "{";
    assert "}" + "" == "}";
  }

  /** A `{name}` field is replaced by the argument's value. */
  lemma RenderField(name: string, args: map<string, string>)
    requires PlainName(name) && name in args
    ensures Render("{" + name + "}", args) == Some(args[name])
  {
    var t := "{" + name + "}";
    assert t[0] == '{' && t[1] == name[0] && name[0] != '{';
    assert forall j :: 1 <= j < |t| - 1 ==> t[j] == name[j - 1] && name[j - 1] != '}';
    assert t[|t| - 1] == '}';
    CloseAtFirst(t, 1, |t| - 1);
    assert t[1..|t| - 1] == name;
    assert t[|t|..] == "";
    assert args[name] + "" == args[name];
  }

  /** A field rendering to v, between a and b, places v right after the
      rendering of a. */
  lemma RenderAround(a: string, field: string, b: string, v: string, args: map<string, string>)
    requires Render(a, args).Some? && Render(b, args).Some?
    requires Render(field, args) == Some(v)
    ensures Render(a + field + b, args) == Some(Render(a, args).value + v + Render(b, args).value)
  {
    var x, y := Render(a, args).value, Render(b, args).value;
    RenderAppend(field, b, args);
    RenderAppend(a, field + b, args);
    assert a + field + b == a + (field + b);
    assert x + (v + y) == x + v + y;
  }

  /** Rendering distributes over concatenation when both halves render. */
  lemma RenderCat(a: string, b: string, x: string, y: string, args: map<string, string>)
    requires Render(a, args) == Some(x) && Render(b, args) == Some(y)
    ensures Render(a + b, args) == Some(x + y)
  {
    RenderAppend(a, b, args);
  }

  /** The `{text}` field both prompt templates use. */
  lemma RenderTextField(args: map<string, string>)
    requires "text" in args
    ensures Render("{text}", args) == Some(args["text"])
  {
    assert PlainName("text") by {
      assert forall k :: 0 <= k < 4 ==> "text"[k] !in "{}!:.[";
    }
    RenderField("text", args);
    assert "{" + "text" + "}" == "{text}";
  }
}
