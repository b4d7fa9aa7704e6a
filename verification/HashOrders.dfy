/**
  Whether the order in which hash maps iterate can be told from the records of a request.
  It can, for the configurations and requests over a set of characters, exactly when that
  set holds both braces.
 */
module HashOrders {
  import opened Wrappers
  import opened Text
  import opened PercentEncoding
  import opened PathCleaning
  import opened EndpointMatching
  import opened Templates
  import opened Config
  import opened ConfigValidation
  import opened Authorization

  /** The platform reads well-formed UTF-8 as the text it encodes. */
  ghost predicate ReadsText(lossy: LossyUtf8)
  {
    forall s :: lossy(Utf8(s)) == s
  }

  ghost predicate TextOver(template: string, allowed: char -> bool)
  {
    exists ps :: TemplateOver(ps, allowed) && Render(ps) == template
  }

  ghost predicate AttributesOver(ra: ResourceAttributes, allowed: char -> bool)
  {
    && TextOver(ra.namespace, allowed) && TextOver(ra.apiGroup, allowed) && TextOver(ra.apiVersion, allowed)
    && TextOver(ra.resource, allowed) && TextOver(ra.subresource, allowed) && TextOver(ra.name, allowed)
    && TextOver(ra.verb, allowed)
  }

  /** The text of the endpoint templates holds no braces but allowed ones. */
  ghost predicate RulesOver(cfg: AuthorizationConfig, allowed: char -> bool)
  {
    forall e, m, r | 0 <= e < |cfg.endpoints| && 0 <= m < |cfg.endpoints[e].mappings|
                     && 0 <= r < |cfg.endpoints[e].mappings[m].resources| ::
      AttributesOver(cfg.endpoints[e].mappings[m].resources[r].attributes, allowed)
  }

  /** The values a request offers hold allowed characters only. */
  ghost predicate RequestOver(req: Request, lossy: LossyUtf8, allowed: char -> bool)
  {
    && (forall i | 0 <= i < |req.headers| && req.headers[i].value.Some? :: Over(req.headers[i].value.value, allowed))
    && (forall i | 0 <= i < |req.query| :: Over(req.query[i].1, allowed))
    && (forall i | 0 <= i < |Segments(req.path)| :: Over(DecodeSegment(Segments(req.path)[i], lossy), allowed))
  }

  /** All orders give the same records, whatever the configuration and the request over these characters. */
  ghost predicate RecordsNeverShowOrder(lossy: LossyUtf8, allowed: char -> bool)
  {
    forall cfg, req, user, order: HashOrder, order': HashOrder |
      ValidConfig(cfg) && RulesOver(cfg, allowed) && RequestOver(req, lossy, allowed) && IsHashOrder(order) && IsHashOrder(order') ::
      RecordsOf(cfg, req, user, Platform(lossy, order)) == RecordsOf(cfg, req, user, Platform(lossy, order'))
  }

  // ---------------------------------------------------------------- a barred brace hides the order

  lemma OverIsFree(s: string, allowed: char -> bool, c: char)
    requires Over(s, allowed) && !allowed(c)
    ensures Free(s, c)
  {
  }

  lemma TextOverIsWellFormed(template: string, allowed: char -> bool, absent: Brace)
    requires TextOver(template, allowed) && !allowed(absent)
    ensures WellFormedTemplate(template, absent)
  {
    var ps :| TemplateOver(ps, allowed) && Render(ps) == template;
    hide Render;
    assert WellFormed(ps, absent);
  }

  lemma BarredBraceHidesOrder(cfg: AuthorizationConfig, req: Request, user: Identity, lossy: LossyUtf8,
                              order: HashOrder, order': HashOrder, allowed: char -> bool, absent: Brace)
    requires ValidConfig(cfg) && RulesOver(cfg, allowed) && RequestOver(req, lossy, allowed) && !allowed(absent)
    requires IsHashOrder(order) && IsHashOrder(order')
    ensures RecordsOf(cfg, req, user, Platform(lossy, order)) == RecordsOf(cfg, req, user, Platform(lossy, order'))
  {
    hide RecordsOf, Segments, DecodeSegment, ValidConfig, IsHashOrder;
    forall template | TextOver(template, allowed)
      ensures WellFormedTemplate(template, absent)
    {
      TextOverIsWellFormed(template, allowed, absent);
    }
    forall s | Over(s, allowed)
      ensures Free(s, absent)
    {
      OverIsFree(s, allowed, absent);
    }
    hide TextOver, WellFormedTemplate, Over, Free;
    RecordsIgnoreHashOrder(cfg, req, user, lossy, order, order', absent);
  }

  // ---------------------------------------------------------------- a request that shows the order

  /** Some listing of every map. */
  ghost function Listing(m: Captures): (keys: seq<string>)
    ensures Lists(keys, m)
    decreases |m|
  {
    if m == map[] then []
    else
      var k :| k in m;
      [k] + Listing(m - {k})
  }

  /** The order that lists this map in this way. */
  ghost function Preferring(m: Captures, keys: seq<string>): (order: HashOrder)
    requires Lists(keys, m)
    ensures IsHashOrder(order) && order(m) == keys
  {
    n => if n == m then keys else Listing(n)
  }

  lemma {:induction false} Utf8Append(a: string, b: string)
    ensures Utf8(a + b) == Utf8(a) + Utf8(b)
  {
    if a == "" {
      assert a + b == b;
    } else {
      Utf8Append(a[1..], b);
      assert (a + b)[1..] == a[1..] + b;
      assert Utf8(a + b) == Utf8Char(a[0]) + Utf8(a[1..] + b) && Utf8(a) == Utf8Char(a[0]) + Utf8(a[1..]);
      hide *;
      Concatenation(Utf8Char(a[0]), Utf8(a[1..]), Utf8(b));
    }
  }

  lemma Concatenation<T>(a: seq<T>, b: seq<T>, c: seq<T>)
    ensures a + b + c == a + (b + c)
  {
  }

  lemma Utf8OfOne(c: char)
    requires c as int < 0x80
    ensures Utf8([c]) == [c as int]
  {
    assert [c][1..] == "";
  }

  /** `%7B` and `%7D` are decoded to braces. */
  lemma EscapedBrace(c: char, tail: string)
    requires c == 'B' || c == 'D'
    ensures PercentDecode(Utf8("%7" + [c] + tail)) == [if c == 'B' then 123 else 125] + PercentDecode(Utf8(tail))
  {
    Utf8OfOne('%');
    Utf8OfOne('7');
    Utf8OfOne(c);
    Utf8Append("%", "7");
    Utf8Append("%7", [c]);
    Utf8Append("%7" + [c], tail);
    hide Utf8;
    assert "%" + "7" == "%7";
    var bytes := [37, 55, c as int] + Utf8(tail);
    assert Utf8("%7" + [c] + tail) == bytes;
    assert bytes[3..] == Utf8(tail);
  }

  /** Text of braces, percent-encoded. */
  function Escaped(braces: string): string
  {
    if braces == "" then "" else "%7" + [if braces[0] == '{' then 'B' else 'D'] + Escaped(braces[1..])
  }

  lemma {:induction false} EscapedDecodes(braces: string)
    requires forall i | 0 <= i < |braces| :: braces[i] in "{}"
    ensures PercentDecode(Utf8(Escaped(braces))) == Utf8(braces)
  {
    if braces != "" {
      EscapedDecodes(braces[1..]);
      EscapedBrace(if braces[0] == '{' then 'B' else 'D', Escaped(braces[1..]));
      assert braces[0] == '{' || braces[0] == '}';
    }
  }

  lemma SegmentsOfParts(parts: seq<string>)
    requires parts != [] && AllOrdinary(parts) && AllFree(parts, '/')
    ensures Split("/" + Join(parts, "/"), '/') == [""] + parts
    ensures Segments("/" + Join(parts, "/")) == [""] + parts
  {
    var path := "/" + Join(parts, "/");
    SplitConcat("", Join(parts, "/"), '/');
    SplitJoin(parts, '/');
    assert "" + "/" + Join(parts, "/") == path;
    SplitFree("", '/');
    ResolveAppend([], [""], parts);
    ResolveOrdinary([], parts);
    assert Resolve([], [""]) == [];
    assert [] + parts == parts;
    SegmentsAreCleanParts(path);
  }

  function Braced(name: string): string
  {
    "{" + name + "}"
  }

  function Pattern(a: string, b: string, c: string): string
  {
    "/" + Join([Braced(a), Braced(b), Braced(c)], "/")
  }

  /** `/%7B%7B/%7D%7D/%7B` */
  function Path(): string
  {
    "/" + Join([Escaped("{{"), Escaped("}}"), Escaped("{")], "/")
  }

  lemma {:induction false} EscapedIsOrdinary(braces: string)
    requires braces != ""
    ensures Ordinary(Escaped(braces)) && Free(Escaped(braces), '/')
  {
    EscapedIsFree(braces);
    assert Escaped(braces)[0] == '%';
  }

  lemma {:induction false} EscapedIsFree(braces: string)
    ensures Free(Escaped(braces), '/')
  {
    if braces != "" {
      EscapedIsFree(braces[1..]);
    }
  }

  lemma BracedIsOrdinary(name: string)
    requires ValidName(name)
    ensures Ordinary(Braced(name)) && Free(Braced(name), '/')
  {
    assert Braced(name)[0] == '{';
  }

  lemma SegmentsOfPattern(a: string, b: string, c: string)
    requires ValidName(a) && ValidName(b) && ValidName(c)
    ensures Split(Pattern(a, b, c), '/') == Segments(Pattern(a, b, c)) == ["", Braced(a), Braced(b), Braced(c)]
  {
    BracedIsOrdinary(a);
    BracedIsOrdinary(b);
    BracedIsOrdinary(c);
    hide Braced, Ordinary, ValidName, Free, Segments, Split, Join;
    SegmentsOfThree(Braced(a), Braced(b), Braced(c));
  }

  lemma SegmentsOfThree(x: string, y: string, z: string)
    requires Ordinary(x) && Ordinary(y) && Ordinary(z) && Free(x, '/') && Free(y, '/') && Free(z, '/')
    ensures
      var path := "/" + Join([x, y, z], "/");
      Split(path, '/') == Segments(path) == ["", x, y, z]
  {
    hide Ordinary, Free, Segments, Split, Join;
    SegmentsOfParts([x, y, z]);
    assert [""] + [x, y, z] == ["", x, y, z];
  }

  lemma SegmentsOfPath()
    ensures Segments(Path()) == ["", Escaped("{{"), Escaped("}}"), Escaped("{")]
  {
    EscapedIsOrdinary("{{");
    EscapedIsOrdinary("}}");
    EscapedIsOrdinary("{");
    hide Escaped, Ordinary, Free, Segments, Split, Join;
    SegmentsOfThree(Escaped("{{"), Escaped("}}"), Escaped("{"));
  }

  lemma BracedIsInjective(m: string, n: string)
    ensures Braced(m) == Braced(n) <==> m == n
    ensures IsCapture(Braced(m)) && CaptureName(Braced(m)) == m
  {
    BracedIsCapture(m);
    BracedIsCapture(n);
  }

  /** A pattern of three captures binds each to its segment. */
  lemma ThreeCaptures(a: string, b: string, c: string, x: string, y: string, z: string, lossy: LossyUtf8)
    requires ValidName(a) && ValidName(b) && ValidName(c) && a != b && b != c && a != c
    ensures
      var pp, rp := ["", Braced(a), Braced(b), Braced(c)], ["", x, y, z];
      && SegmentsMatch(pp, rp)
      && Bindings(pp, rp, lossy) == map[a := DecodeSegment(x, lossy), b := DecodeSegment(y, lossy), c := DecodeSegment(z, lossy)]
  {
    BracedIsInjective(a, b);
    BracedIsInjective(b, c);
    BracedIsInjective(c, a);
    assert !IsCapture("");
    hide Braced, IsCapture, ValidName, DecodeSegment, Bindings;
    BindingsOfOne("", "", lossy);
    BindingsStep([""], [""], Braced(a), x, lossy);
    BindingsStep(["", Braced(a)], ["", x], Braced(b), y, lossy);
    BindingsStep(["", Braced(a), Braced(b)], ["", x, y], Braced(c), z, lossy);
    assert [""] + [Braced(a)] == ["", Braced(a)] && [""] + [x] == ["", x];
    assert ["", Braced(a)] + [Braced(b)] == ["", Braced(a), Braced(b)] && ["", x] + [y] == ["", x, y];
    assert ["", Braced(a), Braced(b)] + [Braced(c)] == ["", Braced(a), Braced(b), Braced(c)] && ["", x, y] + [z] == ["", x, y, z];
  }

  lemma BindingsOfOne(p: string, r: string, lossy: LossyUtf8)
    requires !IsCapture(p)
    ensures Bindings([p], [r], lossy) == map[]
  {
    assert [p][..0] == [] && [r][..0] == [];
  }

  lemma BindingsStep(pp: seq<string>, rp: seq<string>, p: string, r: string, lossy: LossyUtf8)
    requires |pp| == |rp| && IsCapture(p)
    ensures Bindings(pp + [p], rp + [r], lossy) == Bindings(pp, rp, lossy)[CaptureName(p) := DecodeSegment(r, lossy)]
  {
    assert (pp + [p])[..|pp|] == pp && (rp + [r])[..|rp|] == rp;
  }

  lemma EscapedBindsBraces(braces: string, lossy: LossyUtf8)
    requires ReadsText(lossy) && forall i | 0 <= i < |braces| :: braces[i] in "{}"
    ensures DecodeSegment(Escaped(braces), lossy) == braces
  {
    EscapedDecodes(braces);
    hide Escaped, Utf8, PercentDecode;
    assert lossy(Utf8(braces)) == braces;
  }

  lemma PathDecodes(lossy: LossyUtf8)
    requires ReadsText(lossy)
    ensures DecodeSegment("", lossy) == "" && DecodeSegment(Escaped("{{"), lossy) == "{{"
    ensures DecodeSegment(Escaped("}}"), lossy) == "}}" && DecodeSegment(Escaped("{"), lossy) == "{"
  {
    EscapedBindsBraces("", lossy);
    EscapedBindsBraces("{{", lossy);
    EscapedBindsBraces("}}", lossy);
    EscapedBindsBraces("{", lossy);
    assert Escaped("") == "";
    hide Escaped, DecodeSegment, ReadsText;
  }

  /** The path `/%7B%7B/%7D%7D/%7B` binds three captures to two opening braces, two closing ones and one more. */
  lemma PathGivesBraces(a: string, b: string, c: string, lossy: LossyUtf8)
    requires ReadsText(lossy) && ValidName(a) && ValidName(b) && ValidName(c) && a != b && b != c && a != c
    ensures EndpointMatch(Pattern(a, b, c), Path(), lossy) == Some(SplitTokenCaptures(a, b, c))
  {
    hide *;
    SegmentsOfPattern(a, b, c);
    SegmentsOfPath();
    ThreeCaptures(a, b, c, Escaped("{{"), Escaped("}}"), Escaped("{"), lossy);
    PathDecodes(lossy);
    SplitTokenCapturesAre(a, b, c);
    MatchOfSegments(Pattern(a, b, c), Path(), lossy);
  }

  lemma SplitTokenCapturesAre(a: string, b: string, c: string)
    ensures SplitTokenCaptures(a, b, c) == map[a := "{{", b := "}}", c := "{"]
  {
  }

  lemma MatchOfSegments(pattern: string, path: string, lossy: LossyUtf8)
    requires SegmentsMatch(Segments(pattern), Segments(path))
    ensures EndpointMatch(pattern, path, lossy) == Some(Bindings(Segments(pattern), Segments(path), lossy))
  {
  }

  /** All its segments decode to braces. */
  lemma PathIsOver(lossy: LossyUtf8, allowed: char -> bool)
    requires ReadsText(lossy) && allowed('{') && allowed('}')
    ensures forall i | 0 <= i < |Segments(Path())| :: Over(DecodeSegment(Segments(Path())[i], lossy), allowed)
  {
    BracesAreOver(allowed);
    hide *;
    SegmentsOfPath();
    PathDecodes(lossy);
    FourAreOver("", Escaped("{{"), Escaped("}}"), Escaped("{"), lossy, allowed);
  }

  lemma BracesAreOver(allowed: char -> bool)
    requires allowed('{') && allowed('}')
    ensures Over("", allowed) && Over("{{", allowed) && Over("}}", allowed) && Over("{", allowed)
  {
  }

  lemma FourAreOver(x: string, y: string, z: string, w: string, lossy: LossyUtf8, allowed: char -> bool)
    requires Over(DecodeSegment(x, lossy), allowed) && Over(DecodeSegment(y, lossy), allowed)
    requires Over(DecodeSegment(z, lossy), allowed) && Over(DecodeSegment(w, lossy), allowed)
    ensures forall i | 0 <= i < 4 :: Over(DecodeSegment([x, y, z, w][i], lossy), allowed)
  {
    hide Over, DecodeSegment;
  }

  /** A configuration of one endpoint with one rule, whose name holds the content of a token as text. */
  function SplitTokenConfig(a: string, b: string, c: string): AuthorizationConfig
  {
    AuthorizationConfig(None, None, [],
                        [Endpoint(Pattern(a, b, c), [Mapping(["GET"], [Rule(Rewrites(None, None), SplitTokenAttributes(a, b, c))])])])
  }

  function SplitTokenAttributes(a: string, b: string, c: string): ResourceAttributes
  {
    ResourceAttributes("", "", "", "", "", Render(SplitTokenTemplate(a, b, c)), "")
  }

  function SplitTokenRequest(): Request
  {
    Request("GET", Path(), [], [])
  }

  lemma PatternIsValid(a: string, b: string, c: string)
    requires ValidName(a) && ValidName(b) && ValidName(c) && a != b && b != c && a != c
    ensures ValidPattern(Pattern(a, b, c)) && !IsBlank(Pattern(a, b, c))
  {
    PatternIsNotBlank(a, b, c);
    SegmentsOfPattern(a, b, c);
    BracedIsInjective(a, b);
    BracedIsInjective(b, c);
    BracedIsInjective(c, a);
    BracedIsWellFormed(a);
    BracedIsWellFormed(b);
    BracedIsWellFormed(c);
    assert WellFormedSegment("") && !IsCapture("");
    hide Braced, IsCapture, IsBlank, WellFormedSegment, Segments, Pattern, ValidName;
  }

  lemma PatternIsNotBlank(a: string, b: string, c: string)
    ensures !IsBlank(Pattern(a, b, c))
  {
    assert Pattern(a, b, c)[0] == '/' && !IsWhitespace('/');
    hide IsWhitespace, Pattern;
  }

  lemma BracedIsWellFormed(name: string)
    requires ValidName(name)
    ensures WellFormedSegment(Braced(name))
  {
    BracedIsCapture(name);
    hide NameCharacters;
    assert |Braced(name)| >= 3;
  }

  lemma SplitTokenConfigIsValid(a: string, b: string, c: string)
    requires ValidName(a) && ValidName(b) && ValidName(c) && a != b && b != c && a != c
    ensures ValidConfig(SplitTokenConfig(a, b, c))
  {
    PatternIsValid(a, b, c);
    hide Pattern, ValidPattern, IsBlank, SplitTokenAttributes, ValidName;
  }

  lemma SplitTokenAttributesAreOver(a: string, b: string, c: string, allowed: char -> bool)
    requires ValidName(a) && ValidName(b) && ValidName(c) && allowed('{') && allowed('}')
    ensures AttributesOver(SplitTokenAttributes(a, b, c), allowed)
  {
    var ps := SplitTokenTemplate(a, b, c);
    VerbIsBraceFree("GET");
    GetIsGet();
    hide KubeVerb, BraceFree, Over, ValidName, SplitTokenTemplate;
    SplitTokenIsOver(a, b, c, "get", allowed);
    assert TextOver(Render(ps), allowed);
    assert TemplateOver([], allowed) && Render([]) == "";
    assert TextOver("", allowed);
    hide TextOver, Render;
  }

  lemma SplitTokenRulesAreOver(a: string, b: string, c: string, allowed: char -> bool)
    requires AttributesOver(SplitTokenAttributes(a, b, c), allowed)
    ensures RulesOver(SplitTokenConfig(a, b, c), allowed)
  {
    hide AttributesOver, SplitTokenAttributes, Pattern;
  }

  /** The one record of that request: its name is the template, expanded in the platform's order. */
  lemma SplitTokenRecords(a: string, b: string, c: string, user: Identity, lossy: LossyUtf8, order: HashOrder)
    requires ReadsText(lossy) && IsHashOrder(order)
    requires ValidName(a) && ValidName(b) && ValidName(c) && a != b && b != c && a != c
    ensures
      var captures, s := SplitTokenCaptures(a, b, c), Sources("", "", "", "get");
      var records := RecordsOf(SplitTokenConfig(a, b, c), SplitTokenRequest(), user, Platform(lossy, order));
      && Lists(order(captures), captures) && records.Ok? && |records.value| == 1
      && records.value[0].name == ExpandEndpoint(Render(SplitTokenTemplate(a, b, c)), s, captures, order(captures))
  {
    PathGivesBraces(a, b, c, lossy);
    hide ReadsText, ExpandEndpoint, Render, SplitTokenTemplate, SplitTokenCaptures, EndpointMatch, Pattern, Path, ValidName;
    var cfg, req := SplitTokenConfig(a, b, c), SplitTokenRequest();
    assert FirstEndpoint(cfg.endpoints, req.path, lossy) == Some(0);
    var mapping := cfg.endpoints[0].mappings[0];
    assert HandlesMethod(mapping, "GET") by {
      assert EqualIgnoringCase(mapping.methods[0], "GET");
    }
    var captures := SplitTokenCaptures(a, b, c);
    OneRuleOneRecord(mapping.resources[0], captures, order(captures), req, user);
  }

  lemma OneRuleOneRecord(rule: Rule, captures: Captures, keys: seq<string>, req: Request, user: Identity)
    requires forall k | k in keys :: k in captures
    requires rule.rewrites == Rewrites(None, None) && req.httpMethod == "GET"
    ensures
      var records := RuleRecords([rule], captures, keys, req, user);
      && records.Ok? && |records.value| == 1
      && records.value[0].name == ExpandEndpoint(rule.attributes.name, Sources("", "", "", "get"), captures, keys)
  {
    hide ExpandEndpoint;
    assert RuleRecords([rule][1..], captures, keys, req, user) == Ok([]);
  }

  /**
    A request that shows the order: the pattern `/{a}/{b}/{c}`, a rule whose name puts the
    content of the third capture's token between the tokens of the first two, and the path
    `/%7B%7B/%7D%7D/%7B`. Two listings of the captures give two different names.
   */
  lemma RecordsShowOrder(a: string, b: string, c: string, user: Identity, lossy: LossyUtf8, order: HashOrder, order': HashOrder)
    requires ReadsText(lossy) && IsHashOrder(order) && IsHashOrder(order')
    requires ValidName(a) && ValidName(b) && ValidName(c) && a != b && b != c && a != c
    requires order(SplitTokenCaptures(a, b, c)) == [a, b, c] && order'(SplitTokenCaptures(a, b, c)) == [c, a, b]
    ensures
      var cfg, req := SplitTokenConfig(a, b, c), SplitTokenRequest();
      var records := RecordsOf(cfg, req, user, Platform(lossy, order));
      var records' := RecordsOf(cfg, req, user, Platform(lossy, order'));
      && records.Ok? && |records.value| == 1 && records.value[0].name == "{"
      && records'.Ok? && |records'.value| == 1 && records'.value[0].name == Placeholder(CaptureContent(c)) != "{"
  {
    ValidNameIsBraceFree(a);
    ValidNameIsBraceFree(b);
    ValidNameIsBraceFree(c);
    VerbIsBraceFree("GET");
    hide *;
    assert KubeVerb("GET") == "get" by { GetIsGet(); }
    SplitTokenRecords(a, b, c, user, lossy, order);
    SplitTokenRecords(a, b, c, user, lossy, order');
    OrderShowsWhenTokensAreGlued(a, b, c, "get");
  }

  lemma GetIsGet()
    ensures KubeVerb("GET") == "get"
  {
  }

  lemma RequestIsOver(lossy: LossyUtf8, allowed: char -> bool)
    requires ReadsText(lossy) && allowed('{') && allowed('}')
    ensures RequestOver(SplitTokenRequest(), lossy, allowed)
  {
    PathIsOver(lossy, allowed);
    hide Path, Segments, DecodeSegment, ReadsText;
  }

  lemma BothBracesShowOrder(a: string, b: string, c: string, lossy: LossyUtf8, allowed: char -> bool)
    requires ReadsText(lossy) && allowed('{') && allowed('}')
    requires ValidName(a) && ValidName(b) && ValidName(c) && a != b && b != c && a != c
    ensures !RecordsNeverShowOrder(lossy, allowed)
  {
    hide *;
    var captures := SplitTokenCaptures(a, b, c);
    EndpointReplacementsOfThree(a, b, c, Sources("", "", "", ""));
    var order, order' := Preferring(captures, [a, b, c]), Preferring(captures, [c, a, b]);
    var user := Identity("", []);
    SplitTokenConfigIsValid(a, b, c);
    SplitTokenAttributesAreOver(a, b, c, allowed);
    SplitTokenRulesAreOver(a, b, c, allowed);
    RequestIsOver(lossy, allowed);
    RecordsShowOrder(a, b, c, user, lossy, order, order');
    RecordsNeverShowOrderAt(lossy, allowed, SplitTokenConfig(a, b, c), SplitTokenRequest(), user, order, order');
  }

  lemma RecordsNeverShowOrderAt(lossy: LossyUtf8, allowed: char -> bool, cfg: AuthorizationConfig, req: Request, user: Identity,
                                order: HashOrder, order': HashOrder)
    requires ValidConfig(cfg) && RulesOver(cfg, allowed) && RequestOver(req, lossy, allowed) && IsHashOrder(order) && IsHashOrder(order')
    ensures RecordsNeverShowOrder(lossy, allowed) ==>
              RecordsOf(cfg, req, user, Platform(lossy, order)) == RecordsOf(cfg, req, user, Platform(lossy, order'))
  {
    hide ValidConfig, RulesOver, RequestOver, IsHashOrder, RecordsOf;
  }

  /**
    Exactly when no request shows the order: for valid configurations and requests over some
    characters, all orders give the same records if and only if one brace is not among them.
   */
  lemma RecordsNeverShowOrderIffABraceIsBarred(lossy: LossyUtf8, allowed: char -> bool)
    requires ReadsText(lossy)
    ensures RecordsNeverShowOrder(lossy, allowed) <==> !allowed('{') || !allowed('}')
  {
    hide ReadsText, ValidConfig, RulesOver, RequestOver, IsHashOrder, RecordsOf;
    if allowed('{') && allowed('}') {
      BothBracesShowOrder("a", "b", "c", lossy, allowed);
    } else {
      var absent: Brace := if !allowed('{') then '{' else '}';
      forall cfg, req, user, order: HashOrder, order': HashOrder |
        ValidConfig(cfg) && RulesOver(cfg, allowed) && RequestOver(req, lossy, allowed) && IsHashOrder(order) && IsHashOrder(order')
        ensures RecordsOf(cfg, req, user, Platform(lossy, order)) == RecordsOf(cfg, req, user, Platform(lossy, order'))
      {
        BarredBraceHidesOrder(cfg, req, user, lossy, order, order', allowed, absent);
      }
    }
  }
}
