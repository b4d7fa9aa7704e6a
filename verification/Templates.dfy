/**
  The template expander: a chain of textual replacements, part of it in the arbitrary order
  in which a hash map iterates. For templates made of text and `{{...}}` tokens the chain is
  shown to equal one simultaneous substitution, as long as one of the two braces occurs in
  no text and no value; when both may occur, the order can show.
 */
module Templates {
  import opened Wrappers
  import opened Text
  import opened EndpointMatching

  /** A replacement: the content of a `{{...}}` token and the text that replaces it. */
  datatype Replacement = Replacement(content: string, value: string)

  function Placeholder(content: string): (token: string)
    ensures token != ""
  {
    "{{" + content + "}}"
  }

  /** Replacements carried out one after the other, each on the previous one's output. */
  function Chain(text: string, rs: seq<Replacement>): string
    decreases |rs|
  {
    if rs == [] then text
    else Chain(ReplaceAll(text, Placeholder(rs[0].content), rs[0].value), rs[1..])
  }

  /** The order in which a hash map happens to list its keys. */
  type HashOrder = Captures -> seq<string>

  ghost predicate Lists(keys: seq<string>, m: Captures)
  {
    && (forall k :: k in keys <==> k in m)
    && (forall i, j | 0 <= i < j < |keys| :: keys[i] != keys[j])
  }

  ghost predicate IsHashOrder(order: HashOrder)
  {
    forall m :: Lists(order(m), m)
  }

  function CaptureContent(name: string): string
  {
    " index .PathParams \"" + name + "\" "
  }

  function CaptureReplacements(keys: seq<string>, captures: Captures): (rs: seq<Replacement>)
    requires forall k | k in keys :: k in captures
    ensures |rs| == |keys|
    ensures forall i | 0 <= i < |rs| :: rs[i] == Replacement(CaptureContent(keys[i]), captures[keys[i]])
  {
    seq(|keys|, i requires 0 <= i < |keys| => Replacement(CaptureContent(keys[i]), captures[keys[i]]))
  }

  /** The two stages of `value`: the rewrite value first, then every capture. */
  function ValueReplacements(v: string, captures: Captures, keys: seq<string>): seq<Replacement>
    requires forall k | k in keys :: k in captures
  {
    [Replacement(" .Value ", v)] + CaptureReplacements(keys, captures)
  }

  /** Expands the rewrite value and the captures, rebinding the output once per capture. */
  method ExpandValue(template: string, v: string, captures: Captures, keys: seq<string>)
    returns (out: string)
    requires Lists(keys, captures)
    ensures out == Chain(template, ValueReplacements(v, captures, keys))
  {
    out := ReplaceAll(template, "{{ .Value }}", v);
    ghost var rs := ValueReplacements(v, captures, keys);
    TokenSpellings();
    for i := 0 to |keys|
      invariant Chain(template, rs) == Chain(out, rs[i + 1..])
    {
      var token := "{{ index .PathParams \"" + keys[i] + "\" }}";
      CaptureSpelling(keys[i]);
      assert rs[i + 1..][1..] == rs[i + 2..];
      out := ReplaceAll(out, token, captures[keys[i]]);
    }
  }

  /** The values an endpoint template may refer to besides the captures. */
  datatype Sources = Sources(value: string, header: string, query: string, verb: string)

  function RequestReplacements(s: Sources): seq<Replacement>
  {
    [Replacement(".FromHeader", s.header), Replacement(" .FromHeader ", s.header),
     Replacement(".FromQueryString", s.query), Replacement(" .FromQueryString ", s.query),
     Replacement(".FromMethod", s.verb), Replacement(" .FromMethod ", s.verb)]
  }

  function EndpointReplacements(s: Sources, captures: Captures, keys: seq<string>): seq<Replacement>
    requires forall k | k in keys :: k in captures
  {
    ValueReplacements(s.value, captures, keys) + RequestReplacements(s)
  }

  /** An endpoint template: the value and captures first, then the six request tokens. */
  function ExpandEndpoint(template: string, s: Sources, captures: Captures, keys: seq<string>): string
    requires forall k | k in keys :: k in captures
  {
    var out := Chain(template, ValueReplacements(s.value, captures, keys));
    var out := ReplaceAll(out, "{{.FromHeader}}", s.header);
    var out := ReplaceAll(out, "{{ .FromHeader }}", s.header);
    var out := ReplaceAll(out, "{{.FromQueryString}}", s.query);
    var out := ReplaceAll(out, "{{ .FromQueryString }}", s.query);
    var out := ReplaceAll(out, "{{.FromMethod}}", s.verb);
    ReplaceAll(out, "{{ .FromMethod }}", s.verb)
  }

  lemma {:induction false} ChainAppend(text: string, a: seq<Replacement>, b: seq<Replacement>)
    ensures Chain(text, a + b) == Chain(Chain(text, a), b)
    decreases |a|
  {
    if a == [] {
      assert a + b == b;
    } else {
      ChainAppend(ReplaceAll(text, Placeholder(a[0].content), a[0].value), a[1..], b);
      assert (a + b)[1..] == a[1..] + b;
    }
  }

  lemma TokenSpellings()
    ensures Placeholder(" .Value ") == "{{ .Value }}"
    ensures Placeholder(".FromHeader") == "{{.FromHeader}}"
    ensures Placeholder(" .FromHeader ") == "{{ .FromHeader }}"
  {
  }

  lemma QueryTokenSpellings()
    ensures Placeholder(".FromQueryString") == "{{.FromQueryString}}"
    ensures Placeholder(" .FromQueryString ") == "{{ .FromQueryString }}"
  {
  }

  lemma MethodTokenSpellings()
    ensures Placeholder(".FromMethod") == "{{.FromMethod}}"
    ensures Placeholder(" .FromMethod ") == "{{ .FromMethod }}"
  {
  }

  lemma CaptureSpelling(name: string)
    ensures Placeholder(CaptureContent(name)) == "{{ index .PathParams \"" + name + "\" }}"
  {
    var open, prefix, suffix, close := "{{", " index .PathParams \"", "\" ", "}}";
    assert "{{ index .PathParams \"" == open + prefix && "\" }}" == suffix + close;
    Regroup(open, prefix, name, suffix, close);
  }

  lemma Regroup(a: string, b: string, c: string, d: string, e: string)
    ensures a + (b + c + d) + e == (a + b) + c + (d + e)
  {
  }

  lemma ChainStep(text: string, rs: seq<Replacement>, i: nat)
    requires i < |rs|
    ensures Chain(text, rs[i..]) == Chain(ReplaceAll(text, Placeholder(rs[i].content), rs[i].value), rs[i + 1..])
  {
    assert rs[i..][1..] == rs[i + 1..];
  }

  lemma ChainOfSix(text: string, rs: seq<Replacement>)
    requires |rs| == 6
    ensures
      var t1 := ReplaceAll(text, Placeholder(rs[0].content), rs[0].value);
      var t2 := ReplaceAll(t1, Placeholder(rs[1].content), rs[1].value);
      var t3 := ReplaceAll(t2, Placeholder(rs[2].content), rs[2].value);
      var t4 := ReplaceAll(t3, Placeholder(rs[3].content), rs[3].value);
      var t5 := ReplaceAll(t4, Placeholder(rs[4].content), rs[4].value);
      Chain(text, rs) == ReplaceAll(t5, Placeholder(rs[5].content), rs[5].value)
  {
    var t1 := ReplaceAll(text, Placeholder(rs[0].content), rs[0].value);
    var t2 := ReplaceAll(t1, Placeholder(rs[1].content), rs[1].value);
    var t3 := ReplaceAll(t2, Placeholder(rs[2].content), rs[2].value);
    var t4 := ReplaceAll(t3, Placeholder(rs[3].content), rs[3].value);
    var t5 := ReplaceAll(t4, Placeholder(rs[4].content), rs[4].value);
    ChainStep(t5, rs, 5);
    ChainStep(t4, rs, 4);
    ChainStep(t3, rs, 3);
    ChainStep(t2, rs, 2);
    ChainStep(t1, rs, 1);
    ChainStep(text, rs, 0);
    assert rs[0..] == rs;
  }

  lemma ExpandEndpointIsChain(template: string, s: Sources, captures: Captures, keys: seq<string>)
    requires forall k | k in keys :: k in captures
    ensures ExpandEndpoint(template, s, captures, keys)
         == Chain(template, EndpointReplacements(s, captures, keys))
  {
    ChainAppend(template, ValueReplacements(s.value, captures, keys), RequestReplacements(s));
    ChainOfSix(Chain(template, ValueReplacements(s.value, captures, keys)), RequestReplacements(s));
    TokenSpellings();
    QueryTokenSpellings();
    MethodTokenSpellings();
    hide Placeholder, Chain, ReplaceAll, ValueReplacements;
  }

  // ---------------------------------------------------------------- well-formed templates

  datatype Piece = Text(text: string) | Token(content: string)

  predicate BraceFree(s: string)
  {
    '{' !in s && '}' !in s
  }

  /** The one brace that text and values must not hold. */
  type Brace = c: char | c == '{' || c == '}' witness '{'

  /** Text may hold one of the braces, tokens neither. */
  predicate WellFormedPiece(p: Piece, absent: Brace)
  {
    match p
    case Text(text) => Free(text, absent)
    case Token(content) => BraceFree(content)
  }

  predicate WellFormed(ps: seq<Piece>, absent: Brace)
  {
    forall i | 0 <= i < |ps| :: WellFormedPiece(ps[i], absent)
  }

  function RenderPiece(p: Piece): string
  {
    match p
    case Text(text) => text
    case Token(content) => Placeholder(content)
  }

  function Render(ps: seq<Piece>): string
  {
    if ps == [] then "" else RenderPiece(ps[0]) + Render(ps[1..])
  }

  /** The simultaneous substitution: every token at once, by the first replacement that names it. */
  function Meaning(content: string, rs: seq<Replacement>): Option<string>
  {
    if rs == [] then None
    else if rs[0].content == content then Some(rs[0].value)
    else Meaning(content, rs[1..])
  }

  function SubstPiece(p: Piece, rs: seq<Replacement>): Piece
  {
    match p
    case Text(_) => p
    case Token(content) => match Meaning(content, rs) case Some(v) => Text(v) case None => p
  }

  function Subst(ps: seq<Piece>, rs: seq<Replacement>): (r: seq<Piece>)
    ensures |r| == |ps|
    ensures forall i | 0 <= i < |ps| :: r[i] == SubstPiece(ps[i], rs)
  {
    seq(|ps|, i requires 0 <= i < |ps| => SubstPiece(ps[i], rs))
  }

  // ---------------------------------------------------------------- one replacement

  /** Text is copied when no placeholder starts in it. */
  lemma {:induction false} ReplaceSkipsText(text: string, tail: string, content: string, value: string)
    requires forall i | 0 <= i < |text| :: !(Placeholder(content) <= text[i..] + tail)
    ensures ReplaceAll(text + tail, Placeholder(content), value)
         == text + ReplaceAll(tail, Placeholder(content), value)
  {
    if text == "" {
      assert text + tail == tail;
    } else {
      var p := Placeholder(content);
      hide Placeholder, ReplaceAll;
      assert text[0..] == text;
      assert forall i | 0 <= i < |text[1..]| :: text[1..][i..] == text[i + 1..];
      ReplaceSkipsText(text[1..], tail, content, value);
      FirstCharacter(text, tail);
      ReplaceOne(text[0], text[1..] + tail, p, value);
      FirstCharacter(text, ReplaceAll(tail, p, value));
    }
  }

  lemma FirstCharacter(text: string, tail: string)
    requires text != ""
    ensures [text[0]] + (text[1..] + tail) == text + tail
  {
  }

  /** Without an opening brace no placeholder starts. */
  lemma ReplaceSkipsUnopened(text: string, tail: string, content: string, value: string)
    requires Free(text, '{')
    ensures ReplaceAll(text + tail, Placeholder(content), value)
         == text + ReplaceAll(tail, Placeholder(content), value)
  {
    forall i | 0 <= i < |text|
      ensures !(Placeholder(content) <= text[i..] + tail)
    {
      assert Placeholder(content)[0] == '{' && (text[i..] + tail)[0] == text[i];
    }
    ReplaceSkipsText(text, tail, content, value);
  }

  /**
    Without a closing brace none ends: the first one after the text closes a token, and the
    two that open that token cannot lie inside a brace-free content.
   */
  lemma {:induction false} NoPlaceholderStartsUnclosed(text: string, ps: seq<Piece>, content: string)
    requires text != "" && Free(text, '}') && WellFormed(ps, '}') && BraceFree(content)
    ensures !(Placeholder(content) <= text + Render(ps))
    decreases |ps|
  {
    var p := Placeholder(content);
    assert p[2 + |content|] == '}';
    if ps == [] {
      assert text + Render(ps) == text;
    } else {
      assert WellFormedPiece(ps[0], '}');
      match ps[0]
      case Text(more) =>
        NoPlaceholderStartsUnclosed(text + more, ps[1..], content);
        assert text + (more + Render(ps[1..])) == (text + more) + Render(ps[1..]);
      case Token(own) =>
        var whole := text + (Placeholder(own) + Render(ps[1..]));
        TokenBehindText(text, own, Render(ps[1..]));
        assert |content| >= |text| ==> p[|text| + 1] == content[|text| - 1] != whole[|text| + 1];
        assert |whole| > 2 + |content| && |content| < |text| + |own| ==> whole[2 + |content|] != p[2 + |content|];
    }
  }

  lemma TokenBehindText(text: string, own: string, tail: string)
    requires Free(text, '}') && BraceFree(own)
    ensures
      var whole := text + (Placeholder(own) + tail);
      && |whole| >= |text| + |own| + 4 && whole[|text| + 1] == '{'
      && forall i | 0 <= i < |text| + |own| + 2 :: whole[i] != '}'
  {
    var whole := text + (Placeholder(own) + tail);
    forall i | 0 <= i < |text| + |own| + 2
      ensures whole[i] != '}'
    {
      assert whole[i] == if i < |text| then text[i] else Placeholder(own)[i - |text|];
    }
  }

  /** Text that lacks one of the braces is copied, in front of pieces that lack it too. */
  lemma ReplaceSkipsPiece(text: string, ps: seq<Piece>, content: string, value: string, absent: Brace)
    requires Free(text, absent) && WellFormed(ps, absent) && BraceFree(content)
    ensures ReplaceAll(text + Render(ps), Placeholder(content), value)
         == text + ReplaceAll(Render(ps), Placeholder(content), value)
  {
    if absent == '{' {
      ReplaceSkipsUnopened(text, Render(ps), content, value);
    } else {
      forall i | 0 <= i < |text|
        ensures !(Placeholder(content) <= text[i..] + Render(ps))
      {
        NoPlaceholderStartsUnclosed(text[i..], ps, content);
      }
      ReplaceSkipsText(text, Render(ps), content, value);
    }
  }

  /** At a token, only that token's own placeholder matches. */
  lemma PlaceholderAtToken(own: string, other: string, tail: string)
    requires BraceFree(own) && BraceFree(other)
    ensures Placeholder(other) <= Placeholder(own) + tail <==> own == other
  {
    var text, p := Placeholder(own) + tail, Placeholder(other);
    assert p[2 + |other|] == '}' && text[2 + |own|] == '}';
    assert |other| < |own| ==> text[2 + |other|] == own[|other|];
    assert |own| < |other| ==> p[2 + |own|] == other[|own|];
    if p <= text {
      forall i | 0 <= i < |own| && i < |other|
        ensures own[i] == other[i]
      {
        assert p[2 + i] == other[i] && text[2 + i] == own[i];
      }
    }
  }

  /** No placeholder starts inside a token after its first brace. */
  lemma ReplaceSkipsToken(own: string, tail: string, content: string, value: string)
    requires BraceFree(own) && BraceFree(content) && own != content
    ensures ReplaceAll(Placeholder(own) + tail, Placeholder(content), value)
         == Placeholder(own) + ReplaceAll(tail, Placeholder(content), value)
  {
    var p := Placeholder(content);
    var rest := ReplaceAll(tail, p, value);
    var inner := own + ("}}" + tail);
    PlaceholderAtToken(own, content, tail);
    ReplaceSkipsUnopened(own, "}}" + tail, content, value);
    ReplaceSkipsBraces(tail, content, value);
    assert inner[0] != '{';
    SecondBrace(inner, content);
    Spell(own, tail);
    Spell(own, rest);
    hide Placeholder, BraceFree, ReplaceAll;
    ReplaceOne('{', inner, p, value);
    ReplaceOne('{', "{" + inner, p, value);
  }

  lemma Spell(own: string, tail: string)
    ensures Placeholder(own) + tail == "{" + ("{" + (own + ("}}" + tail)))
  {
  }

  lemma SecondBrace(inner: string, content: string)
    requires inner != "" && inner[0] != '{'
    ensures !(Placeholder(content) <= "{" + inner)
  {
    assert Placeholder(content)[1] == '{';
    assert ("{" + inner)[1] == inner[0];
  }

  lemma ReplaceOne(c: char, text: string, pattern: string, value: string)
    requires pattern != "" && !(pattern <= [c] + text)
    ensures ReplaceAll([c] + text, pattern, value) == [c] + ReplaceAll(text, pattern, value)
  {
    assert ([c] + text)[1..] == text;
  }

  lemma ReplaceSkipsBraces(tail: string, content: string, value: string)
    ensures ReplaceAll("}}" + tail, Placeholder(content), value)
         == "}}" + ReplaceAll(tail, Placeholder(content), value)
  {
    var p := Placeholder(content);
    assert p[0] == '{';
    assert ("}}" + tail)[1..] == "}" + tail;
    assert ("}" + tail)[1..] == tail;
    assert "}" + ("}" + ReplaceAll(tail, p, value)) == "}}" + ReplaceAll(tail, p, value);
  }

  lemma MeaningOfOne(p: Piece, r: Replacement)
    ensures SubstPiece(p, [r]) == if p == Token(r.content) then Text(r.value) else p
  {
    if p.Token? {
      assert Meaning(p.content, [r][1..]) == None;
    }
  }

  /** One textual replacement turns exactly the tokens it names into text. */
  lemma {:induction false} ReplaceIsSubst(ps: seq<Piece>, r: Replacement, absent: Brace)
    requires WellFormed(ps, absent) && BraceFree(r.content)
    ensures ReplaceAll(Render(ps), Placeholder(r.content), r.value) == Render(Subst(ps, [r]))
  {
    if ps != [] {
      ReplaceIsSubst(ps[1..], r, absent);
      assert Subst(ps, [r])[1..] == Subst(ps[1..], [r]);
      var tail := Render(ps[1..]);
      assert WellFormedPiece(ps[0], absent);
      MeaningOfOne(ps[0], r);
      match ps[0]
      case Text(text) =>
        ReplaceSkipsPiece(text, ps[1..], r.content, r.value, absent);
      case Token(own) =>
        if own == r.content {
          PlaceholderAtToken(own, r.content, tail);
          assert (Placeholder(own) + tail)[|Placeholder(own)|..] == tail;
        } else {
          ReplaceSkipsToken(own, tail, r.content, r.value);
        }
    }
  }

  // ---------------------------------------------------------------- the whole chain

  predicate TameReplacements(rs: seq<Replacement>, absent: Brace)
  {
    forall i | 0 <= i < |rs| :: BraceFree(rs[i].content) && Free(rs[i].value, absent)
  }

  lemma SubstCompose(ps: seq<Piece>, rs: seq<Replacement>)
    requires rs != []
    ensures Subst(Subst(ps, [rs[0]]), rs[1..]) == Subst(ps, rs)
  {
    forall i | 0 <= i < |ps|
      ensures Subst(Subst(ps, [rs[0]]), rs[1..])[i] == Subst(ps, rs)[i]
    {
      MeaningOfOne(ps[i], rs[0]);
    }
  }

  /** Replacing one after the other is substituting all at once; unnamed tokens stay verbatim. */
  lemma {:induction false} ChainIsSubst(ps: seq<Piece>, rs: seq<Replacement>, absent: Brace)
    requires WellFormed(ps, absent) && TameReplacements(rs, absent)
    ensures Chain(Render(ps), rs) == Render(Subst(ps, rs))
    ensures WellFormed(Subst(ps, rs), absent)
    decreases |rs|
  {
    if rs == [] {
      assert Subst(ps, rs) == ps;
    } else {
      ReplaceIsSubst(ps, rs[0], absent);
      forall i | 0 <= i < |ps| ensures WellFormedPiece(Subst(ps, [rs[0]])[i], absent) {
        MeaningOfOne(ps[i], rs[0]);
      }
      ChainIsSubst(Subst(ps, [rs[0]]), rs[1..], absent);
      SubstCompose(ps, rs);
    }
  }

  // ---------------------------------------------------------------- what a token means

  function NamedCapture(content: string): Option<string>
  {
    var prefix, suffix := " index .PathParams \"", "\" ";
    if StartsWith(content, prefix) && EndsWith(content[|prefix|..], suffix)
    then Some(content[|prefix|..|content| - |suffix|])
    else None
  }

  lemma NamedCaptureInverts(content: string, name: string)
    ensures NamedCapture(content) == Some(name) <==> content == CaptureContent(name)
  {
    var prefix, suffix := " index .PathParams \"", "\" ";
    var own := CaptureContent(name);
    assert own[..|prefix|] == prefix && own[|prefix|..] == name + suffix;
    assert own[|prefix|..][|name|..] == suffix && own[|prefix|..|own| - |suffix|] == name;
    if NamedCapture(content) == Some(name) {
      var rest := content[|prefix|..];
      assert content == prefix + rest;
      assert rest == rest[..|rest| - |suffix|] + rest[|rest| - |suffix|..];
      assert rest[..|rest| - |suffix|] == name;
    }
  }

  /** The intended reading of a token, with no order in it. */
  function TokenValue(content: string, s: Sources, captures: Captures): Option<string>
  {
    if content == " .Value " then Some(s.value)
    else if NamedCapture(content).Some? && NamedCapture(content).value in captures then
      Some(captures[NamedCapture(content).value])
    else if content == ".FromHeader" || content == " .FromHeader " then Some(s.header)
    else if content == ".FromQueryString" || content == " .FromQueryString " then Some(s.query)
    else if content == ".FromMethod" || content == " .FromMethod " then Some(s.verb)
    else None
  }

  lemma {:induction false} MeaningOfCaptures(content: string, keys: seq<string>, captures: Captures, rest: seq<Replacement>)
    requires forall k | k in keys :: k in captures
    ensures
      var name := NamedCapture(content);
      Meaning(content, CaptureReplacements(keys, captures) + rest)
        == if name.Some? && name.value in keys then Some(captures[name.value]) else Meaning(content, rest)
    decreases |keys|
  {
    var rs := CaptureReplacements(keys, captures);
    if keys == [] {
      assert rs + rest == rest;
    } else {
      MeaningOfCaptures(content, keys[1..], captures, rest);
      assert (rs + rest)[1..] == CaptureReplacements(keys[1..], captures) + rest;
      NamedCaptureInverts(content, keys[0]);
    }
  }

  lemma MeaningIsTokenValue(content: string, s: Sources, captures: Captures, keys: seq<string>)
    requires Lists(keys, captures)
    ensures Meaning(content, EndpointReplacements(s, captures, keys)) == TokenValue(content, s, captures)
  {
    var rs := EndpointReplacements(s, captures, keys);
    var tail := RequestReplacements(s);
    assert rs[1..] == CaptureReplacements(keys, captures) + tail;
    MeaningOfCaptures(content, keys, captures, tail);
    MeaningOfRequestTokens(content, s);
  }

  lemma MeaningOfRequestTokens(content: string, s: Sources)
    ensures Meaning(content, RequestReplacements(s))
         == if content == ".FromHeader" || content == " .FromHeader " then Some(s.header)
            else if content == ".FromQueryString" || content == " .FromQueryString " then Some(s.query)
            else if content == ".FromMethod" || content == " .FromMethod " then Some(s.verb)
            else None
  {
    var rs := RequestReplacements(s);
    assert Meaning(content, rs[6..]) == None;
    MeaningStep(content, rs, 5);
    MeaningStep(content, rs, 4);
    MeaningStep(content, rs, 3);
    MeaningStep(content, rs, 2);
    MeaningStep(content, rs, 1);
    MeaningStep(content, rs, 0);
    assert rs[0..] == rs;
  }

  lemma MeaningStep(content: string, rs: seq<Replacement>, i: nat)
    requires i < |rs|
    ensures Meaning(content, rs[i..])
         == if rs[i].content == content then Some(rs[i].value) else Meaning(content, rs[i + 1..])
  {
    assert rs[i..][1..] == rs[i + 1..];
  }

  // ---------------------------------------------------------------- expansion

  predicate TameSources(s: Sources, absent: Brace)
  {
    Free(s.value, absent) && Free(s.header, absent) && Free(s.query, absent) && Free(s.verb, absent)
  }

  predicate TameCaptures(captures: Captures, absent: Brace)
  {
    forall k | k in captures :: BraceFree(k) && Free(captures[k], absent)
  }

  /** Each token of a template replaced by what it means, at once. */
  function Expansion(ps: seq<Piece>, s: Sources, captures: Captures): string
  {
    if ps == [] then ""
    else
      var piece := match ps[0]
        case Text(text) => text
        case Token(content) =>
          match TokenValue(content, s, captures) case Some(v) => v case None => Placeholder(content);
      piece + Expansion(ps[1..], s, captures)
  }

  lemma {:induction false} RenderSubstIsExpansion(ps: seq<Piece>, s: Sources, captures: Captures, keys: seq<string>)
    requires Lists(keys, captures)
    ensures Render(Subst(ps, EndpointReplacements(s, captures, keys))) == Expansion(ps, s, captures)
  {
    if ps != [] {
      var rs := EndpointReplacements(s, captures, keys);
      assert Subst(ps, rs)[1..] == Subst(ps[1..], rs);
      RenderSubstIsExpansion(ps[1..], s, captures, keys);
      if ps[0].Token? {
        MeaningIsTokenValue(ps[0].content, s, captures, keys);
      }
    }
  }

  lemma EndpointReplacementsAreTame(s: Sources, captures: Captures, keys: seq<string>, absent: Brace)
    requires TameSources(s, absent) && TameCaptures(captures, absent) && Lists(keys, captures)
    ensures TameReplacements(EndpointReplacements(s, captures, keys), absent)
  {
    TokenContentsAreBraceFree();
    var rs := CaptureReplacements(keys, captures);
    forall i | 0 <= i < |rs|
      ensures BraceFree(rs[i].content) && Free(rs[i].value, absent)
    {
      assert keys[i] in keys;
      BraceFreeContent(keys[i]);
    }
    TameAppend([Replacement(" .Value ", s.value)], rs, absent);
    RequestReplacementsAreTame(s, absent);
    TameAppend(ValueReplacements(s.value, captures, keys), RequestReplacements(s), absent);
  }

  lemma RequestReplacementsAreTame(s: Sources, absent: Brace)
    requires TameSources(s, absent)
    ensures TameReplacements(RequestReplacements(s), absent)
  {
    TokenContentsAreBraceFree();
    QueryTokenContentsAreBraceFree();
    hide BraceFree, Free;
  }

  lemma PlaceholderIsNotBraceFree(content: string)
    ensures !BraceFree(Placeholder(content))
  {
    assert Placeholder(content)[0] == '{';
  }

  lemma TameAppend(a: seq<Replacement>, b: seq<Replacement>, absent: Brace)
    requires TameReplacements(a, absent) && TameReplacements(b, absent)
    ensures TameReplacements(a + b, absent)
  {
  }

  lemma TokenContentsAreBraceFree()
    ensures BraceFree(" .Value ")
    ensures BraceFree(".FromHeader") && BraceFree(" .FromHeader ")
    ensures BraceFree(".FromMethod") && BraceFree(" .FromMethod ")
  {
  }

  lemma QueryTokenContentsAreBraceFree()
    ensures BraceFree(".FromQueryString") && BraceFree(" .FromQueryString ")
  {
  }

  lemma BraceFreeContent(name: string)
    requires BraceFree(name)
    ensures BraceFree(CaptureContent(name))
  {
    var prefix, suffix := " index .PathParams \"", "\" ";
    assert BraceFree(prefix) && BraceFree(suffix);
  }

  /**
    The main result: when one of the braces occurs in no text of the template and in no
    value, the chain of replacements is the simultaneous expansion, whatever order the hash
    map iterates in.
   */
  lemma ExpandEndpointIsSimultaneous(ps: seq<Piece>, s: Sources, captures: Captures, keys: seq<string>, absent: Brace)
    requires WellFormed(ps, absent) && TameSources(s, absent) && TameCaptures(captures, absent) && Lists(keys, captures)
    ensures ExpandEndpoint(Render(ps), s, captures, keys) == Expansion(ps, s, captures)
  {
    var rs := EndpointReplacements(s, captures, keys);
    EndpointReplacementsAreTame(s, captures, keys, absent);
    ExpandEndpointIsChain(Render(ps), s, captures, keys);
    ChainIsSubst(ps, rs, absent);
    RenderSubstIsExpansion(ps, s, captures, keys);
  }

  /** On a lone token, a chain goes on with the value of the first replacement that names it. */
  lemma {:induction false} ChainOnToken(content: string, rs: seq<Replacement>, at: nat)
    requires BraceFree(content) && at < |rs| && rs[at].content == content
    requires forall i | 0 <= i < at :: BraceFree(rs[i].content) && rs[i].content != content
    ensures Chain(Placeholder(content), rs) == Chain(rs[at].value, rs[at + 1..])
    decreases at
  {
    hide BraceFree, ReplaceAll, Placeholder, Meaning, SubstPiece;
    ReplaceIsSubst([Token(content)], rs[0], '{');
    MeaningOfOne(Token(content), rs[0]);
    RenderOne(Token(content));
    if at == 0 {
      assert Subst([Token(content)], [rs[0]]) == [Text(rs[0].value)];
      RenderOne(Text(rs[0].value));
    } else {
      assert Subst([Token(content)], [rs[0]]) == [Token(content)];
      ChainOnToken(content, rs[1..], at - 1);
      assert rs[1..][at..] == rs[at + 1..];
    }
  }

  lemma RenderOne(p: Piece)
    ensures Render([p]) == RenderPiece(p)
  {
    assert Render([p][1..]) == "";
    assert RenderPiece(p) + "" == RenderPiece(p);
  }

  /** A chain of replacements that do not name a piece leaves it as it is. */
  lemma ChainOnOne(p: Piece, rs: seq<Replacement>, absent: Brace)
    requires WellFormedPiece(p, absent) && TameReplacements(rs, absent) && SubstPiece(p, rs) == p
    ensures Chain(RenderPiece(p), rs) == RenderPiece(p)
  {
    RenderOne(p);
    ChainIsSubst([p], rs, absent);
    assert Subst([p], rs) == [p];
  }

  /**
    A first family in which the order shows. When one capture's value spells the other's token,
    the two iteration orders give two different results on the first one's token.
   */
  lemma OrderMattersWithBraces(a: string, b: string, x: string, s: Sources)
    requires a != b && BraceFree(a) && BraceFree(b) && BraceFree(x) && TameSources(s, '{')
    ensures
      var captures := map[a := Placeholder(CaptureContent(b)), b := x];
      var template := Placeholder(CaptureContent(a));
      && Lists([a, b], captures) && Lists([b, a], captures)
      && ExpandEndpoint(template, s, captures, [a, b]) == x
      && ExpandEndpoint(template, s, captures, [b, a]) == Placeholder(CaptureContent(b)) != x
  {
    var ca, cb := CaptureContent(a), CaptureContent(b);
    var captures := map[a := Placeholder(cb), b := x];
    ContentsDiffer(a, b, s);
    BraceFreeContent(a);
    BraceFreeContent(b);
    TokenContentsAreBraceFree();
    PlaceholderIsNotBraceFree(cb);
    hide ExpandEndpoint, RequestReplacements, CaptureContent, Placeholder, Chain, Meaning, BraceFree;
    var before, after := Replacement(" .Value ", s.value), RequestReplacements(s);
    var ra, rb := Replacement(ca, Placeholder(cb)), Replacement(cb, x);
    ExpandEndpointIsChain(Placeholder(ca), s, captures, [a, b]);
    ExpandEndpointIsChain(Placeholder(ca), s, captures, [b, a]);
    EndpointReplacementsOfTwo(a, b, Placeholder(cb), x, s);
    hide EndpointReplacements, ValueReplacements, CaptureReplacements, Lists, TameReplacements;
    RequestReplacementsAreTame(s, '{');
    TwoOrders(before, ra, rb, after);
  }

  /** The two orders of a replacement whose value is a token and the one that names that token. */
  lemma TwoOrders(before: Replacement, ra: Replacement, rb: Replacement, after: seq<Replacement>)
    requires BraceFree(before.content) && BraceFree(ra.content) && BraceFree(rb.content) && BraceFree(rb.value)
    requires ra.content != rb.content && before.content != ra.content && before.content != rb.content
    requires ra.value == Placeholder(rb.content)
    requires TameReplacements(after, '{') && Meaning(rb.content, after) == None
    ensures Chain(Placeholder(ra.content), [before, ra, rb] + after) == rb.value
    ensures Chain(Placeholder(ra.content), [before, rb, ra] + after) == Placeholder(rb.content)
  {
    var ab, ba := [before, ra, rb] + after, [before, rb, ra] + after;
    ChainOnToken(ra.content, ab, 1);
    ChainOnToken(rb.content, ab[2..], 0);
    assert ab[2..][1..] == after;
    ChainOnOne(Text(rb.value), after, '{');
    ChainOnToken(ra.content, ba, 2);
    assert ba[3..] == after;
    ChainOnOne(Token(rb.content), after, '{');
  }

  lemma EndpointReplacementsOfTwo(a: string, b: string, va: string, vb: string, s: Sources)
    requires a != b
    ensures
      var captures := map[a := va, b := vb];
      var ra, rb := Replacement(CaptureContent(a), va), Replacement(CaptureContent(b), vb);
      var before, after := Replacement(" .Value ", s.value), RequestReplacements(s);
      && Lists([a, b], captures) && Lists([b, a], captures)
      && EndpointReplacements(s, captures, [a, b]) == [before, ra, rb] + after
      && EndpointReplacements(s, captures, [b, a]) == [before, rb, ra] + after
  {
    hide CaptureContent, RequestReplacements;
    var captures := map[a := va, b := vb];
    var ra, rb := Replacement(CaptureContent(a), va), Replacement(CaptureContent(b), vb);
    assert CaptureReplacements([a, b], captures) == [ra, rb];
    assert CaptureReplacements([b, a], captures) == [rb, ra];
    var before := Replacement(" .Value ", s.value);
    assert [before] + [ra, rb] == [before, ra, rb];
    assert [before] + [rb, ra] == [before, rb, ra];
  }

  lemma ContentsDiffer(a: string, b: string, s: Sources)
    requires a != b
    ensures CaptureContent(a) != CaptureContent(b)
    ensures CaptureContent(a) != " .Value " && CaptureContent(b) != " .Value "
    ensures Meaning(CaptureContent(b), RequestReplacements(s)) == None
  {
    NamedCaptureInverts(CaptureContent(a), a);
    NamedCaptureInverts(CaptureContent(b), b);
    MeaningOfRequestTokens(CaptureContent(b), s);
    assert CaptureContent(a)[1] == 'i' && CaptureContent(b)[1] == 'i';
  }

  // ---------------------------------------------------------------- exactly when the order shows

  predicate Over(s: string, allowed: char -> bool)
  {
    forall i | 0 <= i < |s| :: allowed(s[i])
  }

  /** Text with any characters but braces that are not allowed. */
  predicate BracesOver(s: string, allowed: char -> bool)
  {
    ('{' in s ==> allowed('{')) && ('}' in s ==> allowed('}'))
  }

  predicate TemplateOver(ps: seq<Piece>, allowed: char -> bool)
  {
    forall i | 0 <= i < |ps| ::
      match ps[i] case Text(text) => BracesOver(text, allowed) case Token(content) => BraceFree(content)
  }

  /**
    Values as requests give them, of allowed characters only: that of the header or else that
    of the query, a verb, and under valid names segments that are not empty.
   */
  predicate ValuesOver(s: Sources, captures: Captures, allowed: char -> bool)
  {
    && s.value == (if s.header != "" then s.header else s.query) && Over(s.header, allowed) && Over(s.query, allowed)
    && s.verb != "" && BraceFree(s.verb)
    && forall k | k in captures :: ValidName(k) && captures[k] != "" && Over(captures[k], allowed)
  }

  lemma ValidNameIsBraceFree(name: string)
    requires ValidName(name)
    ensures BraceFree(name)
  {
  }

  /** Whatever the template and the values over these characters, all orders of the captures agree. */
  ghost predicate OrderNeverShows(allowed: char -> bool)
  {
    forall ps, s, captures, keys, keys' |
      TemplateOver(ps, allowed) && ValuesOver(s, captures, allowed) && Lists(keys, captures) && Lists(keys', captures) ::
      ExpandEndpoint(Render(ps), s, captures, keys) == ExpandEndpoint(Render(ps), s, captures, keys')
  }

  /** The order in which the hash map iterates never shows exactly when one of the braces is not allowed in values. */
  lemma OrderNeverShowsIffABraceIsBarred(allowed: char -> bool)
    ensures OrderNeverShows(allowed) <==> !allowed('{') || !allowed('}')
  {
    hide ExpandEndpoint, Render;
    if !allowed('{') || !allowed('}') {
      var absent: Brace := if !allowed('{') then '{' else '}';
      forall ps, s, captures, keys, keys' |
        TemplateOver(ps, allowed) && ValuesOver(s, captures, allowed) && Lists(keys, captures) && Lists(keys', captures)
        ensures ExpandEndpoint(Render(ps), s, captures, keys) == ExpandEndpoint(Render(ps), s, captures, keys')
      {
        BarredIsAbsent(ps, s, captures, allowed, absent);
        ExpandEndpointIsSimultaneous(ps, s, captures, keys, absent);
        ExpandEndpointIsSimultaneous(ps, s, captures, keys', absent);
      }
    } else {
      GluedTokenShowsOrder("a", "b", "c", "get", allowed);
    }
  }

  lemma OrderNeverShowsAt(allowed: char -> bool, ps: seq<Piece>, s: Sources, captures: Captures, keys: seq<string>, keys': seq<string>)
    requires TemplateOver(ps, allowed) && ValuesOver(s, captures, allowed) && Lists(keys, captures) && Lists(keys', captures)
    ensures OrderNeverShows(allowed) ==>
              ExpandEndpoint(Render(ps), s, captures, keys) == ExpandEndpoint(Render(ps), s, captures, keys')
  {
    hide TemplateOver, ValuesOver, Lists, ExpandEndpoint, Render;
  }

  lemma BarredIsAbsent(ps: seq<Piece>, s: Sources, captures: Captures, allowed: char -> bool, absent: Brace)
    requires TemplateOver(ps, allowed) && ValuesOver(s, captures, allowed) && !allowed(absent)
    ensures WellFormed(ps, absent) && TameSources(s, absent) && TameCaptures(captures, absent)
  {
    forall k | k in captures
      ensures BraceFree(k)
    {
      ValidNameIsBraceFree(k);
    }
  }

  /** The content of a third capture's token as text, between the tokens of two captures. */
  function SplitTokenTemplate(a: string, b: string, c: string): seq<Piece>
  {
    [Token(CaptureContent(a)), Text(CaptureContent(c)), Token(CaptureContent(b))]
  }

  /** Values that put the braces of a third capture's token around its content. */
  function SplitTokenCaptures(a: string, b: string, c: string): Captures
  {
    map[a := "{{", b := "}}", c := "{"]
  }

  lemma SplitTokenIsOver(a: string, b: string, c: string, verb: string, allowed: char -> bool)
    requires ValidName(a) && ValidName(b) && ValidName(c) && verb != "" && BraceFree(verb) && allowed('{') && allowed('}')
    ensures TemplateOver(SplitTokenTemplate(a, b, c), allowed)
    ensures ValuesOver(Sources("", "", "", verb), SplitTokenCaptures(a, b, c), allowed)
  {
    ValidNameIsBraceFree(a);
    ValidNameIsBraceFree(b);
    ValidNameIsBraceFree(c);
    BraceFreeContent(a);
    BraceFreeContent(b);
    BraceFreeContent(c);
    hide CaptureContent, BraceFree, ValidName;
  }

  /**
    A second family in which the order shows: the values of two captures put the braces of
    the third one's token around its content. No single value spells a token here.
   */
  lemma OrderShowsWhenTokensAreGlued(a: string, b: string, c: string, verb: string)
    requires a != b && b != c && a != c && BraceFree(a) && BraceFree(b) && BraceFree(c) && BraceFree(verb)
    ensures
      var captures, s := SplitTokenCaptures(a, b, c), Sources("", "", "", verb);
      var template := Render(SplitTokenTemplate(a, b, c));
      && Lists([a, b, c], captures) && Lists([c, a, b], captures)
      && ExpandEndpoint(template, s, captures, [a, b, c]) == "{"
      && ExpandEndpoint(template, s, captures, [c, a, b]) == Placeholder(CaptureContent(c)) != "{"
  {
    var ca, cb, cc := CaptureContent(a), CaptureContent(b), CaptureContent(c);
    var captures, s := SplitTokenCaptures(a, b, c), Sources("", "", "", verb);
    ContentsDiffer(a, b, s);
    ContentsDiffer(b, c, s);
    ContentsDiffer(c, a, s);
    BraceFreeContent(a);
    BraceFreeContent(b);
    BraceFreeContent(c);
    TokenContentsAreBraceFree();
    RequestReplacementsAreTame(s, '{');
    RequestReplacementsAreTame(s, '}');
    EndpointReplacementsOfThree(a, b, c, s);
    ExpandEndpointIsChain(Render(SplitTokenTemplate(a, b, c)), s, captures, [a, b, c]);
    ExpandEndpointIsChain(Render(SplitTokenTemplate(a, b, c)), s, captures, [c, a, b]);
    assert |Placeholder(cc)| > 1;
    hide ExpandEndpoint, RequestReplacements, CaptureContent, Placeholder, Chain, Meaning, BraceFree, Lists;
    hide EndpointReplacements, ValueReplacements, CaptureReplacements, TameReplacements, Render;
    GluedOrders(Replacement(" .Value ", ""), Replacement(ca, "{{"), Replacement(cb, "}}"), Replacement(cc, "{"), RequestReplacements(s));
  }

  lemma GluedTokenShowsOrder(a: string, b: string, c: string, verb: string, allowed: char -> bool)
    requires a != b && b != c && a != c && ValidName(a) && ValidName(b) && ValidName(c) && verb != "" && BraceFree(verb)
    requires allowed('{') && allowed('}')
    ensures !OrderNeverShows(allowed)
  {
    var captures, s := SplitTokenCaptures(a, b, c), Sources("", "", "", verb);
    var ps := SplitTokenTemplate(a, b, c);
    ValidNameIsBraceFree(a);
    ValidNameIsBraceFree(b);
    ValidNameIsBraceFree(c);
    OrderShowsWhenTokensAreGlued(a, b, c, verb);
    SplitTokenIsOver(a, b, c, verb, allowed);
    OrderNeverShowsAt(allowed, ps, s, captures, [a, b, c], [c, a, b]);
    hide OrderNeverShows, SplitTokenTemplate, SplitTokenCaptures, TemplateOver, ValuesOver, Lists, ExpandEndpoint, Render;
  }

  lemma EndpointReplacementsOfThree(a: string, b: string, c: string, s: Sources)
    requires a != b && b != c && a != c
    ensures
      var captures := SplitTokenCaptures(a, b, c);
      var ra, rb, rc := Replacement(CaptureContent(a), "{{"), Replacement(CaptureContent(b), "}}"), Replacement(CaptureContent(c), "{");
      var before, after := Replacement(" .Value ", s.value), RequestReplacements(s);
      && Lists([a, b, c], captures) && Lists([c, a, b], captures)
      && EndpointReplacements(s, captures, [a, b, c]) == [before, ra, rb, rc] + after
      && EndpointReplacements(s, captures, [c, a, b]) == [before, rc, ra, rb] + after
  {
    hide CaptureContent, RequestReplacements;
    var captures := SplitTokenCaptures(a, b, c);
    var ra, rb, rc := Replacement(CaptureContent(a), "{{"), Replacement(CaptureContent(b), "}}"), Replacement(CaptureContent(c), "{");
    var before := Replacement(" .Value ", s.value);
    assert CaptureReplacements([a, b, c], captures) == [ra, rb, rc];
    assert CaptureReplacements([c, a, b], captures) == [rc, ra, rb];
    assert [before] + [ra, rb, rc] == [before, ra, rb, rc];
    assert [before] + [rc, ra, rb] == [before, rc, ra, rb];
  }

  /** Both orders: braces put around text before its token is looked for, and after. */
  lemma GluedOrders(before: Replacement, ra: Replacement, rb: Replacement, rc: Replacement, after: seq<Replacement>)
    requires BraceFree(before.content) && BraceFree(ra.content) && BraceFree(rb.content) && BraceFree(rc.content)
    requires before.content != ra.content && before.content != rb.content
    requires ra.content != rb.content && rb.content != rc.content && rc.content != ra.content
    requires ra.value == "{{" && rb.value == "}}" && rc.value == "{"
    requires TameReplacements(after, '{') && TameReplacements(after, '}') && Meaning(rc.content, after) == None
    ensures
      var text := Render([Token(ra.content), Text(rc.content), Token(rb.content)]);
      && Chain(text, [before, ra, rb, rc] + after) == "{"
      && Chain(text, [before, rc, ra, rb] + after) == Placeholder(rc.content)
  {
    var ps := [Token(ra.content), Text(rc.content), Token(rb.content)];
    var text, token := Render(ps), Placeholder(rc.content);
    SkipPieces(ps, before);
    SkipPieces(ps, rc);
    GlueToken(ra, rb, rc.content);
    hide ReplaceAll, Render, Placeholder, Meaning, BraceFree;
    ChainOfFour(text, [before, ra, rb, rc], after);
    ChainOfFour(text, [before, rc, ra, rb], after);
    hide Chain;
    ReplaceOwnToken(rc);
    ChainOnOne(Text("{"), after, '}');
    ChainOnOne(Token(rc.content), after, '{');
  }

  lemma ChainOfFour(text: string, rs: seq<Replacement>, after: seq<Replacement>)
    requires |rs| == 4
    ensures
      var t1 := ReplaceAll(text, Placeholder(rs[0].content), rs[0].value);
      var t2 := ReplaceAll(t1, Placeholder(rs[1].content), rs[1].value);
      var t3 := ReplaceAll(t2, Placeholder(rs[2].content), rs[2].value);
      Chain(text, rs + after) == Chain(ReplaceAll(t3, Placeholder(rs[3].content), rs[3].value), after)
  {
    hide ReplaceAll, Placeholder;
    var all := rs + after;
    var t1 := ReplaceAll(text, Placeholder(rs[0].content), rs[0].value);
    var t2 := ReplaceAll(t1, Placeholder(rs[1].content), rs[1].value);
    var t3 := ReplaceAll(t2, Placeholder(rs[2].content), rs[2].value);
    ChainStep(text, all, 0);
    ChainStep(t1, all, 1);
    ChainStep(t2, all, 2);
    ChainStep(t3, all, 3);
    assert all[0..] == all && all[4..] == after;
  }

  /** A replacement that names no token of a template leaves it as it is. */
  lemma SkipPieces(ps: seq<Piece>, r: Replacement)
    requires WellFormed(ps, '{') && BraceFree(r.content) && Token(r.content) !in ps
    ensures ReplaceAll(Render(ps), Placeholder(r.content), r.value) == Render(ps)
  {
    ReplaceIsSubst(ps, r, '{');
    forall i | 0 <= i < |ps|
      ensures Subst(ps, [r])[i] == ps[i]
    {
      MeaningOfOne(ps[i], r);
    }
    assert Subst(ps, [r]) == ps;
  }

  lemma ReplaceOwnToken(r: Replacement)
    requires BraceFree(r.content)
    ensures ReplaceAll(Placeholder(r.content), Placeholder(r.content), r.value) == r.value
  {
    ReplaceIsSubst([Token(r.content)], r, '{');
    MeaningOfOne(Token(r.content), r);
    RenderOne(Token(r.content));
    RenderOne(Text(r.value));
    assert Subst([Token(r.content)], [r]) == [Text(r.value)];
  }

  /** Two braces put in front of the content and two behind it make a token. */
  lemma GlueToken(ra: Replacement, rb: Replacement, content: string)
    requires BraceFree(ra.content) && BraceFree(rb.content) && BraceFree(content) && ra.content != rb.content
    requires ra.value == "{{" && rb.value == "}}"
    ensures
      var text := Render([Token(ra.content), Text(content), Token(rb.content)]);
      var half := ReplaceAll(text, Placeholder(ra.content), ra.value);
      ReplaceAll(half, Placeholder(rb.content), rb.value) == Placeholder(content)
  {
    var ps := [Token(ra.content), Text(content), Token(rb.content)];
    var half := [Text("{{"), Text(content), Token(rb.content)];
    var closed := [Text("{{"), Text(content), Text("}}")];
    SubstOfThree(ps, ra, half);
    SubstOfThree(half, rb, closed);
    hide ReplaceAll, Subst;
    ReplaceIsSubst(ps, ra, '{');
    ReplaceIsSubst(half, rb, '}');
    RenderThreeTexts("{{", content, "}}");
  }

  lemma SubstOfThree(ps: seq<Piece>, r: Replacement, after: seq<Piece>)
    requires |ps| == |after| == 3
    requires forall i | 0 <= i < 3 :: after[i] == if ps[i] == Token(r.content) then Text(r.value) else ps[i]
    ensures Subst(ps, [r]) == after
  {
    MeaningOfOne(ps[0], r);
    MeaningOfOne(ps[1], r);
    MeaningOfOne(ps[2], r);
  }

  lemma RenderThreeTexts(a: string, b: string, c: string)
    ensures Render([Text(a), Text(b), Text(c)]) == a + b + c
  {
    var ps := [Text(a), Text(b), Text(c)];
    assert ps[1..] == [Text(b), Text(c)] && ps[1..][1..] == [Text(c)];
    RenderOne(Text(c));
    assert a + (b + c) == a + b + c;
  }
}
