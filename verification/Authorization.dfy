/**
  From a request to the attribute records that must be authorized, and the static rules
  that may allow a record without a review.
 */
module Authorization {
  import opened Wrappers
  import opened Text
  import opened PercentEncoding
  import opened Config
  import opened ConfigValidation
  import opened EndpointMatching
  import opened Templates
  import opened Selections

  datatype Identity = Identity(name: string, groups: seq<string>)

  datatype Attributes = Attributes(
    user: Identity, verb: string, namespace: string, apiGroup: string, apiVersion: string,
    resource: string, subresource: string, name: string, resourceRequest: bool, path: string)

  /** A header value is `None` when it is not visible ASCII text; header names are lower case. */
  datatype Header = Header(name: string, value: Option<string>)

  /** A request, with its query string already parsed into ordered pairs. */
  datatype Request = Request(httpMethod: string, path: string, query: seq<(string, string)>, headers: seq<Header>)

  /** What the model leaves to the platform: lossy decoding and hash-map iteration order. */
  datatype Platform = Platform(lossy: LossyUtf8, order: HashOrder)

  datatype RequestError = MethodNotAllowed | MissingHeader(name: string) | MissingQuery(name: string)

  type Records = Result<seq<Attributes>, RequestError>

  function KubeVerb(httpMethod: string): string
  {
    match httpMethod
    case "GET" => "get"
    case "POST" => "create"
    case "PUT" => "update"
    case "PATCH" => "patch"
    case "DELETE" => "delete"
    case "OPTIONS" => "options"
    case "HEAD" => "head"
    case _ => "*"
  }

  /** The methods with a verb of their own. */
  function MethodVerbs(): seq<(string, string)>
  {
    [("GET", "get"), ("POST", "create"), ("PUT", "update"), ("PATCH", "patch"), ("DELETE", "delete"),
     ("OPTIONS", "options"), ("HEAD", "head")]
  }

  /** Each of these methods has its verb, in exactly this spelling; any other one has the star. */
  lemma VerbOfMethod(httpMethod: string)
    ensures forall i | 0 <= i < |MethodVerbs()| && MethodVerbs()[i].0 == httpMethod :: KubeVerb(httpMethod) == MethodVerbs()[i].1
    ensures (forall i | 0 <= i < |MethodVerbs()| :: MethodVerbs()[i].0 != httpMethod) ==> KubeVerb(httpMethod) == "*"
  {
    var v := MethodVerbs();
    assert v[0].0 == "GET" && v[1].0 == "POST" && v[2].0 == "PUT" && v[3].0 == "PATCH";
    assert v[4].0 == "DELETE" && v[5].0 == "OPTIONS" && v[6].0 == "HEAD";
  }

  // ---------------------------------------------------------------- reading the request

  function HeaderValues(headers: seq<Header>, name: string): seq<string>
  {
    if headers == [] then []
    else
      var rest := HeaderValues(headers[1..], name);
      if headers[0].name == AsciiLower(name) && headers[0].value.Some? then [headers[0].value.value] + rest else rest
  }

  function QueryValues(query: seq<(string, string)>, name: string): seq<string>
  {
    if query == [] then []
    else
      var rest := QueryValues(query[1..], name);
      if query[0].0 == name then [query[0].1] + rest else rest
  }

  /** The first header of that name; empty when it is absent or not text. */
  function FirstHeader(headers: seq<Header>, name: string): string
  {
    if headers == [] then ""
    else if headers[0].name == AsciiLower(name) then
      match headers[0].value case Some(v) => v case None => ""
    else FirstHeader(headers[1..], name)
  }

  function FirstQuery(query: seq<(string, string)>, name: string): string
  {
    if query == [] then "" else if query[0].0 == name then query[0].1 else FirstQuery(query[1..], name)
  }

  /** The header read is the first of that name, up to letter case. */
  lemma {:induction false} FirstHeaderMeaning(headers: seq<Header>, name: string, i: nat)
    requires i <= |headers| && forall j | 0 <= j < i :: headers[j].name != AsciiLower(name)
    requires i < |headers| ==> headers[i].name == AsciiLower(name)
    ensures FirstHeader(headers, name)
         == if i < |headers| && headers[i].value.Some? then headers[i].value.value else ""
  {
    hide AsciiLower;
    if i > 0 {
      FirstHeaderMeaning(headers[1..], name, i - 1);
    }
  }

  /** Header names hold no capitals. */
  predicate LowerNames(headers: seq<Header>)
  {
    forall i, j | 0 <= i < |headers| && 0 <= j < |headers[i].name| :: headers[i].name[j] !in UpperLetters()
  }

  /** Whatever the letter case in which a header is asked for, the first one of that name is read. */
  lemma FirstHeaderIgnoresCase(headers: seq<Header>, name: string, i: nat)
    requires LowerNames(headers)
    requires i <= |headers| && forall j | 0 <= j < i :: !EqualIgnoringCase(headers[j].name, name)
    requires i < |headers| ==> EqualIgnoringCase(headers[i].name, name)
    ensures FirstHeader(headers, name)
         == if i < |headers| && headers[i].value.Some? then headers[i].value.value else ""
  {
    hide AsciiLower, EqualIgnoringCase, UpperLetters, FirstHeader;
    forall j | 0 <= j < |headers|
      ensures headers[j].name == AsciiLower(name) <==> EqualIgnoringCase(headers[j].name, name)
    {
      LowerNameMatches(headers[j].name, name);
    }
    FirstHeaderMeaning(headers, name, i);
  }

  /** The query value read is that of the first pair of that name. */
  lemma {:induction false} FirstQueryMeaning(query: seq<(string, string)>, name: string, i: nat)
    requires i <= |query| && forall j | 0 <= j < i :: query[j].0 != name
    requires i < |query| ==> query[i].0 == name
    ensures FirstQuery(query, name) == if i < |query| then query[i].1 else ""
  {
    if i > 0 {
      FirstQueryMeaning(query[1..], name, i - 1);
    }
  }

  /** A header's text, when it has that name in whatever letter case. */
  function HeaderNamed(name: string): Header -> Option<string>
  {
    (h: Header) => if EqualIgnoringCase(h.name, name) then h.value else None
  }

  function QueryNamed(name: string): ((string, string)) -> Option<string>
  {
    (p: (string, string)) => if p.0 == name then Some(p.1) else None
  }

  /** The header values read are those of all textual headers of the name, in order. */
  lemma {:induction false} HeaderValuesAreAll(headers: seq<Header>, name: string)
    requires LowerNames(headers)
    ensures IsSelection(headers, HeaderValues(headers, name), HeaderNamed(name))
  {
    hide AsciiLower, EqualIgnoringCase, UpperLetters, IsSelection;
    if headers == [] {
      SelectsNone(HeaderNamed(name));
    } else {
      LowerNameMatches(headers[0].name, name);
      HeaderValuesAreAll(headers[1..], name);
      SelectsMore(headers, HeaderValues(headers[1..], name), HeaderNamed(name));
    }
  }

  /** The query values read are those of all pairs of the name, in order. */
  lemma {:induction false} QueryValuesAreAll(query: seq<(string, string)>, name: string)
    ensures IsSelection(query, QueryValues(query, name), QueryNamed(name))
  {
    hide IsSelection;
    if query == [] {
      SelectsNone(QueryNamed(name));
    } else {
      QueryValuesAreAll(query[1..], name);
      SelectsMore(query, QueryValues(query[1..], name), QueryNamed(name));
    }
  }

  /** Every value of the configured query parameter, then every one of the configured header. */
  function CollectedValues(req: Request, r: Rewrites): seq<string>
  {
    (match r.byQueryParameter case Some(q) => QueryValues(req.query, q) case None => []) +
    (match r.byHttpHeader case Some(h) => HeaderValues(req.headers, h) case None => [])
  }

  method Collect(req: Request, r: Rewrites) returns (v: seq<string>)
    ensures v == CollectedValues(req, r)
  {
    v := [];
    if r.byQueryParameter.Some? {
      var name := r.byQueryParameter.value;
      for i := 0 to |req.query|
        invariant v + QueryValues(req.query[i..], name) == QueryValues(req.query, name)
      {
        assert req.query[i..][1..] == req.query[i + 1..];
        if req.query[i].0 == name {
          v := v + [req.query[i].1];
        }
      }
      assert v == QueryValues(req.query, name);
    }
    if r.byHttpHeader.Some? {
      var name := r.byHttpHeader.value;
      ghost var before := v;
      for i := 0 to |req.headers|
        invariant v + HeaderValues(req.headers[i..], name) == before + HeaderValues(req.headers, name)
      {
        assert req.headers[i..][1..] == req.headers[i + 1..];
        var header := req.headers[i];
        if header.name == AsciiLower(name) && header.value.Some? {
          v := v + [header.value.value];
        }
      }
      assert v == before + HeaderValues(req.headers, name);
    }
  }

  /** The rewrite values of an endpoint rule; a configured one that is empty is an error. */
  function EndpointRewrites(req: Request, r: Rewrites): Result<Sources, RequestError>
  {
    var verb := KubeVerb(req.httpMethod);
    var header := match r.byHttpHeader case Some(h) => FirstHeader(req.headers, h) case None => "";
    var query := match r.byQueryParameter case Some(q) => FirstQuery(req.query, q) case None => "";
    if r.byHttpHeader.Some? && header == "" then Err(MissingHeader(r.byHttpHeader.value))
    else if r.byQueryParameter.Some? && query == "" then Err(MissingQuery(r.byQueryParameter.value))
    else Ok(Sources(if header != "" then header else query, header, query, verb))
  }

  /**
    What an endpoint rule reads: a configured header or parameter without a value is an error,
    the header's coming first; the value is the header's where one is configured.
   */
  lemma EndpointRewritesMeaning(req: Request, r: Rewrites)
    ensures
      match EndpointRewrites(req, r)
      case Err(MissingHeader(name)) => r.byHttpHeader == Some(name) && FirstHeader(req.headers, name) == ""
      case Err(MissingQuery(name)) =>
        && r.byQueryParameter == Some(name) && FirstQuery(req.query, name) == ""
        && (r.byHttpHeader.Some? ==> FirstHeader(req.headers, r.byHttpHeader.value) != "")
      case Err(MethodNotAllowed) => false
      case Ok(s) =>
        && (r.byHttpHeader.Some? ==> s.value == s.header == FirstHeader(req.headers, r.byHttpHeader.value) != "")
        && (r.byQueryParameter.Some? ==> s.query == FirstQuery(req.query, r.byQueryParameter.value) != "")
        && (r.byHttpHeader.None? ==> s.header == "" && s.value == s.query)
        && (r.byQueryParameter.None? ==> s.query == "")
        && s.verb == KubeVerb(req.httpMethod)
  {
    hide KubeVerb, FirstHeader, FirstQuery;
  }

  // ---------------------------------------------------------------- attribute records

  function ToAttributes(ra: ResourceAttributes, req: Request, user: Identity): Attributes
  {
    Attributes(user, if ra.verb == "" then KubeVerb(req.httpMethod) else ra.verb, ra.namespace, ra.apiGroup,
               ra.apiVersion, ra.resource, ra.subresource, ra.name, true, req.path)
  }

  function ExpandAttributes(ra: ResourceAttributes, s: Sources, captures: Captures, keys: seq<string>): ResourceAttributes
    requires forall k | k in keys :: k in captures
  {
    ResourceAttributes(
      namespace := ExpandEndpoint(ra.namespace, s, captures, keys),
      apiGroup := ExpandEndpoint(ra.apiGroup, s, captures, keys),
      apiVersion := ExpandEndpoint(ra.apiVersion, s, captures, keys),
      resource := ExpandEndpoint(ra.resource, s, captures, keys),
      subresource := ExpandEndpoint(ra.subresource, s, captures, keys),
      name := ExpandEndpoint(ra.name, s, captures, keys),
      verb := ExpandEndpoint(ra.verb, s, captures, keys))
  }

  function RuleRecord(rule: Rule, captures: Captures, keys: seq<string>, req: Request, user: Identity)
    : Result<Attributes, RequestError>
    requires forall k | k in keys :: k in captures
  {
    match EndpointRewrites(req, rule.rewrites)
    case Err(e) => Err(e)
    case Ok(s) => Ok(ToAttributes(ExpandAttributes(rule.attributes, s, captures, keys), req, user))
  }

  function RuleRecords(rules: seq<Rule>, captures: Captures, keys: seq<string>, req: Request, user: Identity): Records
    requires forall k | k in keys :: k in captures
  {
    if rules == [] then Ok([])
    else
      match RuleRecord(rules[0], captures, keys, req, user)
      case Err(e) => Err(e)
      case Ok(a) => Prepend([a], RuleRecords(rules[1..], captures, keys, req, user))
  }

  predicate HandlesMethod(mapping: Mapping, httpMethod: string)
  {
    exists i | 0 <= i < |mapping.methods| :: EqualIgnoringCase(mapping.methods[i], httpMethod)
  }

  function FirstMapping(mappings: seq<Mapping>, httpMethod: string): (r: Option<nat>)
    ensures match r
            case None => forall i | 0 <= i < |mappings| :: !HandlesMethod(mappings[i], httpMethod)
            case Some(k) =>
              && k < |mappings| && HandlesMethod(mappings[k], httpMethod)
              && forall i | 0 <= i < k :: !HandlesMethod(mappings[i], httpMethod)
  {
    if mappings == [] then None
    else if HandlesMethod(mappings[0], httpMethod) then Some(0)
    else match FirstMapping(mappings[1..], httpMethod) case None => None case Some(k) => Some(k + 1)
  }

  /** It is the first mapping one of whose methods spells the request's, whatever the letter case. */
  lemma FirstMappingLists(mappings: seq<Mapping>, httpMethod: string, k: nat)
    ensures FirstMapping(mappings, httpMethod) == Some(k) <==>
              && k < |mappings|
              && (exists j | 0 <= j < |mappings[k].methods| :: EqualIgnoringCase(mappings[k].methods[j], httpMethod))
              && forall i, j | 0 <= i < k && 0 <= j < |mappings[i].methods| ::
                   !EqualIgnoringCase(mappings[i].methods[j], httpMethod)
  {
    hide EqualIgnoringCase;
    match FirstMapping(mappings, httpMethod)
    case None =>
    case Some(first) => assert HandlesMethod(mappings[first], httpMethod);
  }

  /** The index of the first endpoint whose pattern matches the path. */
  function FirstEndpoint(endpoints: seq<Endpoint>, path: string, lossy: LossyUtf8): Option<nat>
  {
    if endpoints == [] then None
    else if EndpointMatch(endpoints[0].path, path, lossy).Some? then Some(0)
    else match FirstEndpoint(endpoints[1..], path, lossy) case None => None case Some(k) => Some(k + 1)
  }

  ghost predicate IsFirstEndpoint(endpoints: seq<Endpoint>, path: string, lossy: LossyUtf8, k: nat)
  {
    && k < |endpoints| && EndpointMatch(endpoints[k].path, path, lossy).Some?
    && forall i | 0 <= i < k :: EndpointMatch(endpoints[i].path, path, lossy).None?
  }

  lemma {:induction false} FirstEndpointIsFirst(endpoints: seq<Endpoint>, path: string, lossy: LossyUtf8)
    ensures
      match FirstEndpoint(endpoints, path, lossy)
      case None => forall i | 0 <= i < |endpoints| :: EndpointMatch(endpoints[i].path, path, lossy).None?
      case Some(k) => IsFirstEndpoint(endpoints, path, lossy, k)
    ensures forall k: nat :: IsFirstEndpoint(endpoints, path, lossy, k) ==> FirstEndpoint(endpoints, path, lossy) == Some(k)
  {
    hide EndpointMatch;
    if endpoints != [] {
      FirstEndpointIsFirst(endpoints[1..], path, lossy);
      assert forall i | 0 < i < |endpoints| :: endpoints[i] == endpoints[1..][i - 1];
    }
  }

  function EndpointRecords(endpoint: Endpoint, captures: Captures, req: Request, user: Identity, order: HashOrder): Records
    requires Lists(order(captures), captures)
  {
    match FirstMapping(endpoint.mappings, req.httpMethod)
    case None => Err(MethodNotAllowed)
    case Some(k) => RuleRecords(endpoint.mappings[k].resources, captures, order(captures), req, user)
  }

  /** Expands only the rewrite value; there are no captures outside endpoints. */
  function ExpandValueOnly(template: string, v: string): string
  {
    ReplaceAll(template, "{{ .Value }}", v)
  }

  function ValueRecord(ra: ResourceAttributes, v: string, req: Request, user: Identity): Attributes
  {
    Attributes(user, if ra.verb == "" then KubeVerb(req.httpMethod) else ra.verb,
               ExpandValueOnly(ra.namespace, v), ExpandValueOnly(ra.apiGroup, v), ExpandValueOnly(ra.apiVersion, v),
               ExpandValueOnly(ra.resource, v), ExpandValueOnly(ra.subresource, v), ExpandValueOnly(ra.name, v),
               true, req.path)
  }

  function ValueRecords(ra: ResourceAttributes, values: seq<string>, req: Request, user: Identity): (r: seq<Attributes>)
    ensures |r| == |values|
    ensures forall i | 0 <= i < |values| :: r[i] == ValueRecord(ra, values[i], req, user)
  {
    seq(|values|, i requires 0 <= i < |values| => ValueRecord(ra, values[i], req, user))
  }

  function GlobalRecords(cfg: AuthorizationConfig, req: Request, user: Identity): seq<Attributes>
  {
    match cfg.resourceAttributes
    case None => [Attributes(user, KubeVerb(req.httpMethod), "", "", "", "", "", "", false, req.path)]
    case Some(ra) =>
      ValueRecords(ra, match cfg.rewrites case Some(r) => CollectedValues(req, r) case None => [""], req, user)
  }

  /** The records of a request: the first matching endpoint decides, else the global attributes. */
  function RecordsOf(cfg: AuthorizationConfig, req: Request, user: Identity, platform: Platform): Records
    requires IsHashOrder(platform.order)
  {
    FirstEndpointIsFirst(cfg.endpoints, req.path, platform.lossy);
    hide EndpointMatch;
    match FirstEndpoint(cfg.endpoints, req.path, platform.lossy)
    case Some(k) =>
      var captures := EndpointMatch(cfg.endpoints[k].path, req.path, platform.lossy).value;
      EndpointRecords(cfg.endpoints[k], captures, req, user, platform.order)
    case None => Ok(GlobalRecords(cfg, req, user))
  }

  /** One rule of a matched endpoint, its seven templates expanded in turn. */
  method ExpandRule(rule: Rule, captures: Captures, keys: seq<string>, req: Request, user: Identity)
    returns (r: Result<Attributes, RequestError>)
    requires Lists(keys, captures)
    ensures r == RuleRecord(rule, captures, keys, req, user)
  {
    var ra := rule.attributes;
    var rewrite := EndpointRewrites(req, rule.rewrites);
    if rewrite.Err? {
      return Err(rewrite.error);
    }
    var s := rewrite.value;
    var verb := ExpandTemplate(ra.verb, s, captures, keys);
    var namespace := ExpandTemplate(ra.namespace, s, captures, keys);
    var apiGroup := ExpandTemplate(ra.apiGroup, s, captures, keys);
    var apiVersion := ExpandTemplate(ra.apiVersion, s, captures, keys);
    var resource := ExpandTemplate(ra.resource, s, captures, keys);
    var subresource := ExpandTemplate(ra.subresource, s, captures, keys);
    var name := ExpandTemplate(ra.name, s, captures, keys);
    ra := ResourceAttributes(namespace, apiGroup, apiVersion, resource, subresource, name, verb);
    r := Ok(ToAttributes(ra, req, user));
  }

  method ExpandTemplate(template: string, s: Sources, captures: Captures, keys: seq<string>) returns (out: string)
    requires Lists(keys, captures)
    ensures out == ExpandEndpoint(template, s, captures, keys)
  {
    out := ExpandValue(template, s.value, captures, keys);
    out := ReplaceAll(out, "{{.FromHeader}}", s.header);
    out := ReplaceAll(out, "{{ .FromHeader }}", s.header);
    out := ReplaceAll(out, "{{.FromQueryString}}", s.query);
    out := ReplaceAll(out, "{{ .FromQueryString }}", s.query);
    out := ReplaceAll(out, "{{.FromMethod}}", s.verb);
    out := ReplaceAll(out, "{{ .FromMethod }}", s.verb);
  }

  /** The attribute generator: endpoints in order with an early return, else the global attributes. */
  method GenerateAttributes(cfg: AuthorizationConfig, req: Request, user: Identity, platform: Platform)
    returns (r: Records)
    requires IsHashOrder(platform.order)
    ensures r == RecordsOf(cfg, req, user, platform)
  {
    hide EndpointMatch, EndpointRecords, GlobalRecords;
    FirstEndpointIsFirst(cfg.endpoints, req.path, platform.lossy);
    for i := 0 to |cfg.endpoints|
      invariant forall j | 0 <= j < i :: EndpointMatch(cfg.endpoints[j].path, req.path, platform.lossy).None?
    {
      var captures := MatchEndpoint(cfg.endpoints[i].path, req.path, platform.lossy);
      if captures.Some? {
        assert IsFirstEndpoint(cfg.endpoints, req.path, platform.lossy, i);
        r := GenerateForEndpoint(cfg.endpoints[i], captures.value, req, user, platform.order);
        return;
      }
    }
    var records := GenerateGlobally(cfg, req, user);
    r := Ok(records);
  }

  method GenerateForEndpoint(endpoint: Endpoint, captures: Captures, req: Request, user: Identity, order: HashOrder)
    returns (r: Records)
    requires Lists(order(captures), captures)
    ensures r == EndpointRecords(endpoint, captures, req, user, order)
  {
    var mapping := FirstMapping(endpoint.mappings, req.httpMethod);
    if mapping.None? {
      return Err(MethodNotAllowed);
    }
    r := ExpandRules(endpoint.mappings[mapping.value].resources, captures, order(captures), req, user);
  }

  method GenerateGlobally(cfg: AuthorizationConfig, req: Request, user: Identity) returns (records: seq<Attributes>)
    ensures records == GlobalRecords(cfg, req, user)
  {
    hide ValueRecord, KubeVerb;
    if cfg.resourceAttributes.None? {
      return [Attributes(user, KubeVerb(req.httpMethod), "", "", "", "", "", "", false, req.path)];
    }
    var values := [""];
    if cfg.rewrites.Some? {
      values := Collect(req, cfg.rewrites.value);
      if values == [] {
        return [];
      }
    }
    records := ValueRecords(cfg.resourceAttributes.value, values, req, user);
  }

  method ExpandRules(rules: seq<Rule>, captures: Captures, keys: seq<string>, req: Request, user: Identity)
    returns (r: Records)
    requires Lists(keys, captures)
    ensures r == RuleRecords(rules, captures, keys, req, user)
  {
    hide RuleRecord;
    var out: seq<Attributes> := [];
    assert rules[0..] == rules;
    Prepending([], [], RuleRecords(rules, captures, keys, req, user));
    for i := 0 to |rules|
      invariant RuleRecords(rules, captures, keys, req, user)
             == Prepend(out, RuleRecords(rules[i..], captures, keys, req, user))
    {
      assert rules[i..][1..] == rules[i + 1..];
      var record := ExpandRule(rules[i], captures, keys, req, user);
      if record.Err? {
        return Err(record.error);
      }
      Prepending(out, [record.value], RuleRecords(rules[i + 1..], captures, keys, req, user));
      out := out + [record.value];
    }
    assert out + [] == out;
    r := Ok(out);
  }

  function Prepend(front: seq<Attributes>, records: Records): Records
  {
    match records
    case Err(e) => Err(e)
    case Ok(rest) => Ok(front + rest)
  }

  lemma Prepending(a: seq<Attributes>, b: seq<Attributes>, records: Records)
    ensures Prepend([], records) == records
    ensures Prepend(a, Prepend(b, records)) == Prepend(a + b, records)
  {
    if records.Ok? {
      assert [] + records.value == records.value;
      assert a + (b + records.value) == (a + b) + records.value;
    }
  }

  // ---------------------------------------------------------------- what the records are

  /** The first matching endpoint alone decides: nothing else in the configuration matters. */
  lemma FirstMatchAloneDecides(cfg: AuthorizationConfig, cfg': AuthorizationConfig, k: nat, k': nat,
                               req: Request, user: Identity, platform: Platform)
    requires IsHashOrder(platform.order)
    requires IsFirstEndpoint(cfg.endpoints, req.path, platform.lossy, k)
    requires IsFirstEndpoint(cfg'.endpoints, req.path, platform.lossy, k')
    requires cfg.endpoints[k] == cfg'.endpoints[k']
    ensures RecordsOf(cfg, req, user, platform) == RecordsOf(cfg', req, user, platform)
  {
    hide EndpointMatch;
    FirstEndpointIsFirst(cfg.endpoints, req.path, platform.lossy);
    FirstEndpointIsFirst(cfg'.endpoints, req.path, platform.lossy);
  }

  lemma {:induction false} RuleRecordsInOrder(rules: seq<Rule>, captures: Captures, keys: seq<string>, req: Request, user: Identity)
    requires forall k | k in keys :: k in captures
    ensures
      match RuleRecords(rules, captures, keys, req, user)
      case Ok(records) =>
        && |records| == |rules|
        && forall i | 0 <= i < |rules| :: RuleRecord(rules[i], captures, keys, req, user) == Ok(records[i])
      case Err(e) =>
        exists i | 0 <= i < |rules| ::
          && RuleRecord(rules[i], captures, keys, req, user) == Err(e)
          && forall j | 0 <= j < i :: RuleRecord(rules[j], captures, keys, req, user).Ok?
  {
    hide RuleRecord;
    if rules != [] {
      RuleRecordsInOrder(rules[1..], captures, keys, req, user);
      if RuleRecord(rules[0], captures, keys, req, user).Ok? {
        match RuleRecords(rules[1..], captures, keys, req, user)
        case Ok(rest) =>
          forall i | 0 <= i < |rules|
            ensures RuleRecord(rules[i], captures, keys, req, user)
                 == Ok(RuleRecords(rules, captures, keys, req, user).value[i])
          {
            if i > 0 {
              assert rules[1..][i - 1] == rules[i];
            }
          }
        case Err(e) =>
          var i :| 0 <= i < |rules[1..]|
            && RuleRecord(rules[1..][i], captures, keys, req, user) == Err(e)
            && forall j | 0 <= j < i :: RuleRecord(rules[1..][j], captures, keys, req, user).Ok?;
          assert rules[i + 1] == rules[1..][i];
          forall j | 0 <= j < i + 1
            ensures RuleRecord(rules[j], captures, keys, req, user).Ok?
          {
            if j > 0 {
              assert rules[j] == rules[1..][j - 1];
            }
          }
      }
    }
  }

  lemma RuleRecordFails(rule: Rule, captures: Captures, keys: seq<string>, req: Request, user: Identity)
    requires forall k | k in keys :: k in captures
    ensures
      match RuleRecord(rule, captures, keys, req, user)
      case Ok(_) => EndpointRewrites(req, rule.rewrites).Ok?
      case Err(e) => EndpointRewrites(req, rule.rewrites) == Err(e)
  {
  }

  /**
    On a valid configuration a matched endpoint gives an error or exactly one record per
    rule of the first mapping for the method, in order and never none.
   */
  lemma MatchedEndpointRecords(cfg: AuthorizationConfig, k: nat, captures: Captures, req: Request, user: Identity, platform: Platform)
    requires ValidConfig(cfg) && IsHashOrder(platform.order)
    requires IsFirstEndpoint(cfg.endpoints, req.path, platform.lossy, k)
    requires EndpointMatch(cfg.endpoints[k].path, req.path, platform.lossy) == Some(captures)
    ensures
      match FirstMapping(cfg.endpoints[k].mappings, req.httpMethod)
      case None => RecordsOf(cfg, req, user, platform) == Err(MethodNotAllowed)
      case Some(m) =>
        var rules := cfg.endpoints[k].mappings[m].resources;
        match RecordsOf(cfg, req, user, platform)
        case Err(e) => exists i | 0 <= i < |rules| :: EndpointRewrites(req, rules[i].rewrites) == Err(e)
        case Ok(records) =>
          && |records| == |rules| > 0
          && forall i | 0 <= i < |rules| ::
               RuleRecord(rules[i], captures, platform.order(captures), req, user) == Ok(records[i])
  {
    hide EndpointMatch, EndpointRewrites, RuleRecord;
    FirstEndpointIsFirst(cfg.endpoints, req.path, platform.lossy);
    var endpoint := cfg.endpoints[k];
    assert ValidEndpoint(endpoint);
    match FirstMapping(endpoint.mappings, req.httpMethod)
    case None =>
    case Some(m) =>
      assert ValidMapping(endpoint.mappings[m]);
      var rules, keys := endpoint.mappings[m].resources, platform.order(captures);
      RuleRecordsInOrder(rules, captures, keys, req, user);
      if RuleRecords(rules, captures, keys, req, user).Err? {
        var e := RuleRecords(rules, captures, keys, req, user).error;
        var i :| 0 <= i < |rules| && RuleRecord(rules[i], captures, keys, req, user) == Err(e);
        RuleRecordFails(rules[i], captures, keys, req, user);
      }
  }

  /**
    The global records: without configured attributes one record that is no resource and
    carries verb and path only; without rewrites one that reads the templates with no value;
    else one for each value collected.
   */
  lemma GlobalRecordsMeaning(cfg: AuthorizationConfig, req: Request, user: Identity)
    ensures
      var records := GlobalRecords(cfg, req, user);
      match cfg.resourceAttributes
      case None =>
        && |records| == 1
        && var a := records[0];
           && a.user == user && a.verb == KubeVerb(req.httpMethod) && a.path == req.path && !a.resourceRequest
           && a.namespace == a.apiGroup == a.apiVersion == a.resource == a.subresource == a.name == ""
      case Some(ra) =>
        if cfg.rewrites.None? then |records| == 1 && records[0] == ValueRecord(ra, "", req, user)
        else
          var values := CollectedValues(req, cfg.rewrites.value);
          |records| == |values| && forall i | 0 <= i < |values| :: records[i] == ValueRecord(ra, values[i], req, user)
  {
    hide KubeVerb, ValueRecord, CollectedValues;
  }

  /** Without a matching endpoint the global attributes decide. */
  lemma NoMatchMeansGlobal(cfg: AuthorizationConfig, req: Request, user: Identity, platform: Platform)
    requires IsHashOrder(platform.order)
    requires forall i | 0 <= i < |cfg.endpoints| :: EndpointMatch(cfg.endpoints[i].path, req.path, platform.lossy).None?
    ensures RecordsOf(cfg, req, user, platform) == Ok(GlobalRecords(cfg, req, user))
  {
    hide EndpointMatch, GlobalRecords;
    FirstEndpointIsFirst(cfg.endpoints, req.path, platform.lossy);
  }

  /** With global rewrites: one record per collected value, those of the query first. */
  lemma GlobalRewriteRecords(cfg: AuthorizationConfig, req: Request, user: Identity)
    requires cfg.resourceAttributes.Some? && cfg.rewrites.Some?
    ensures
      var ra := cfg.resourceAttributes.value;
      var fromQuery := match cfg.rewrites.value.byQueryParameter case Some(q) => QueryValues(req.query, q) case None => [];
      var fromHeader := match cfg.rewrites.value.byHttpHeader case Some(h) => HeaderValues(req.headers, h) case None => [];
      GlobalRecords(cfg, req, user) == ValueRecords(ra, fromQuery, req, user) + ValueRecords(ra, fromHeader, req, user)
  {
    hide QueryValues, HeaderValues, ValueRecords, KubeVerb;
    var fromQuery := match cfg.rewrites.value.byQueryParameter case Some(q) => QueryValues(req.query, q) case None => [];
    var fromHeader := match cfg.rewrites.value.byHttpHeader case Some(h) => HeaderValues(req.headers, h) case None => [];
    assert CollectedValues(req, cfg.rewrites.value) == fromQuery + fromHeader;
    ValueRecordsAppend(cfg.resourceAttributes.value, fromQuery, fromHeader, req, user);
  }

  lemma ValueRecordsAppend(ra: ResourceAttributes, a: seq<string>, b: seq<string>, req: Request, user: Identity)
    ensures ValueRecords(ra, a + b, req, user) == ValueRecords(ra, a, req, user) + ValueRecords(ra, b, req, user)
  {
    hide ValueRecord;
  }

  // ---------------------------------------------------------------- independence of hash order

  ghost predicate WellFormedTemplate(template: string, absent: Brace)
  {
    exists ps :: WellFormed(ps, absent) && Render(ps) == template
  }

  ghost predicate WellFormedTemplates(ra: ResourceAttributes, absent: Brace)
  {
    && WellFormedTemplate(ra.namespace, absent) && WellFormedTemplate(ra.apiGroup, absent) && WellFormedTemplate(ra.apiVersion, absent)
    && WellFormedTemplate(ra.resource, absent) && WellFormedTemplate(ra.subresource, absent) && WellFormedTemplate(ra.name, absent)
    && WellFormedTemplate(ra.verb, absent)
  }

  lemma ExpandEndpointIgnoresOrder(template: string, s: Sources, captures: Captures, keys: seq<string>, keys': seq<string>,
                                  absent: Brace)
    requires WellFormedTemplate(template, absent) && TameSources(s, absent) && TameCaptures(captures, absent)
    requires Lists(keys, captures) && Lists(keys', captures)
    ensures ExpandEndpoint(template, s, captures, keys) == ExpandEndpoint(template, s, captures, keys')
  {
    var ps :| WellFormed(ps, absent) && Render(ps) == template;
    ExpandEndpointIsSimultaneous(ps, s, captures, keys, absent);
    ExpandEndpointIsSimultaneous(ps, s, captures, keys', absent);
  }

  /** What a well-formed template is meant to say, whichever way it is taken apart. */
  ghost function Meant(template: string, s: Sources, captures: Captures, absent: Brace): string
    requires WellFormedTemplate(template, absent)
  {
    var ps :| WellFormed(ps, absent) && Render(ps) == template;
    Expansion(ps, s, captures)
  }

  lemma ExpandEndpointIsMeant(template: string, s: Sources, captures: Captures, keys: seq<string>, absent: Brace)
    requires WellFormedTemplate(template, absent) && TameSources(s, absent) && TameCaptures(captures, absent) && Lists(keys, captures)
    ensures ExpandEndpoint(template, s, captures, keys) == Meant(template, s, captures, absent)
  {
    var ps :| WellFormed(ps, absent) && Render(ps) == template && Meant(template, s, captures, absent) == Expansion(ps, s, captures);
    ExpandEndpointIsSimultaneous(ps, s, captures, keys, absent);
  }

  /**
    The record of a rule, field by field: each holds what its own template means, the verb
    falls back to that of the method, and the rest comes from the request.
   */
  lemma RuleRecordFields(rule: Rule, captures: Captures, keys: seq<string>, req: Request, user: Identity, s: Sources,
                         absent: Brace)
    requires WellFormedTemplates(rule.attributes, absent) && TameRequest(req, absent) && TameCaptures(captures, absent) && Lists(keys, captures)
    requires EndpointRewrites(req, rule.rewrites) == Ok(s)
    ensures
      var ra := rule.attributes;
      var r := RuleRecord(rule, captures, keys, req, user);
      && r.Ok?
      && r.value.namespace == Meant(ra.namespace, s, captures, absent)
      && r.value.apiGroup == Meant(ra.apiGroup, s, captures, absent)
      && r.value.apiVersion == Meant(ra.apiVersion, s, captures, absent)
      && r.value.resource == Meant(ra.resource, s, captures, absent)
      && r.value.subresource == Meant(ra.subresource, s, captures, absent)
      && r.value.name == Meant(ra.name, s, captures, absent)
      && r.value.verb == (if Meant(ra.verb, s, captures, absent) != "" then Meant(ra.verb, s, captures, absent) else KubeVerb(req.httpMethod))
      && r.value.user == user && r.value.resourceRequest && r.value.path == req.path
  {
    RewritesAreTame(req, rule.rewrites, absent);
    hide EndpointRewrites, ExpandEndpoint, KubeVerb, WellFormedTemplate, Meant;
    var ra := rule.attributes;
    ExpandEndpointIsMeant(ra.namespace, s, captures, keys, absent);
    ExpandEndpointIsMeant(ra.apiGroup, s, captures, keys, absent);
    ExpandEndpointIsMeant(ra.apiVersion, s, captures, keys, absent);
    ExpandEndpointIsMeant(ra.resource, s, captures, keys, absent);
    ExpandEndpointIsMeant(ra.subresource, s, captures, keys, absent);
    ExpandEndpointIsMeant(ra.name, s, captures, keys, absent);
    ExpandEndpointIsMeant(ra.verb, s, captures, keys, absent);
  }

  /** Outside endpoints only the value token is replaced, whatever the value holds. */
  lemma ValueOnlyIsSubst(ps: seq<Piece>, v: string, absent: Brace)
    requires WellFormed(ps, absent)
    ensures ExpandValueOnly(Render(ps), v) == Render(Subst(ps, [Replacement(" .Value ", v)]))
  {
    TokenSpellings();
    TokenContentsAreBraceFree();
    ReplaceIsSubst(ps, Replacement(" .Value ", v), absent);
  }

  /** What a well-formed template says when only the value is put in. */
  ghost function MeantByValue(template: string, v: string, absent: Brace): string
    requires WellFormedTemplate(template, absent)
  {
    var ps :| WellFormed(ps, absent) && Render(ps) == template;
    Render(Subst(ps, [Replacement(" .Value ", v)]))
  }

  lemma ValueOnlyIsMeant(template: string, v: string, absent: Brace)
    requires WellFormedTemplate(template, absent)
    ensures ExpandValueOnly(template, v) == MeantByValue(template, v, absent)
  {
    var ps :| WellFormed(ps, absent) && Render(ps) == template
      && MeantByValue(template, v, absent) == Render(Subst(ps, [Replacement(" .Value ", v)]));
    ValueOnlyIsSubst(ps, v, absent);
  }

  /** A record of the global attributes, field by field; its verb is not a template. */
  lemma ValueRecordFields(ra: ResourceAttributes, v: string, req: Request, user: Identity, absent: Brace)
    requires WellFormedTemplates(ra, absent)
    ensures
      var r := ValueRecord(ra, v, req, user);
      && r.namespace == MeantByValue(ra.namespace, v, absent) && r.apiGroup == MeantByValue(ra.apiGroup, v, absent)
      && r.apiVersion == MeantByValue(ra.apiVersion, v, absent) && r.resource == MeantByValue(ra.resource, v, absent)
      && r.subresource == MeantByValue(ra.subresource, v, absent) && r.name == MeantByValue(ra.name, v, absent)
      && r.verb == (if ra.verb != "" then ra.verb else KubeVerb(req.httpMethod))
      && r.user == user && r.resourceRequest && r.path == req.path
  {
    hide KubeVerb, ExpandValueOnly, WellFormedTemplate, MeantByValue;
    ValueOnlyIsMeant(ra.namespace, v, absent);
    ValueOnlyIsMeant(ra.apiGroup, v, absent);
    ValueOnlyIsMeant(ra.apiVersion, v, absent);
    ValueOnlyIsMeant(ra.resource, v, absent);
    ValueOnlyIsMeant(ra.subresource, v, absent);
    ValueOnlyIsMeant(ra.name, v, absent);
  }

  ghost predicate TameRequest(req: Request, absent: Brace)
  {
    && (forall i | 0 <= i < |req.headers| && req.headers[i].value.Some? :: Free(req.headers[i].value.value, absent))
    && (forall i | 0 <= i < |req.query| :: Free(req.query[i].1, absent))
  }

  lemma {:induction false} FirstHeaderIsFree(headers: seq<Header>, name: string, c: char)
    requires forall i | 0 <= i < |headers| && headers[i].value.Some? :: Free(headers[i].value.value, c)
    ensures Free(FirstHeader(headers, name), c)
  {
    if headers != [] {
      FirstHeaderIsFree(headers[1..], name, c);
    }
  }

  lemma {:induction false} FirstQueryIsFree(query: seq<(string, string)>, name: string, c: char)
    requires forall i | 0 <= i < |query| :: Free(query[i].1, c)
    ensures Free(FirstQuery(query, name), c)
  {
    if query != [] {
      FirstQueryIsFree(query[1..], name, c);
    }
  }

  lemma RewritesAreTame(req: Request, r: Rewrites, absent: Brace)
    requires TameRequest(req, absent) && EndpointRewrites(req, r).Ok?
    ensures TameSources(EndpointRewrites(req, r).value, absent)
  {
    assert Free("", absent);
    VerbIsBraceFree(req.httpMethod);
    hide KubeVerb, Free, FirstHeader, FirstQuery;
    if r.byHttpHeader.Some? {
      FirstHeaderIsFree(req.headers, r.byHttpHeader.value, absent);
    }
    if r.byQueryParameter.Some? {
      FirstQueryIsFree(req.query, r.byQueryParameter.value, absent);
    }
  }

  lemma VerbIsBraceFree(httpMethod: string)
    ensures BraceFree(KubeVerb(httpMethod))
  {
  }

  lemma RuleRecordIgnoresOrder(rule: Rule, captures: Captures, keys: seq<string>, keys': seq<string>, req: Request, user: Identity,
                               absent: Brace)
    requires WellFormedTemplates(rule.attributes, absent) && TameRequest(req, absent) && TameCaptures(captures, absent)
    requires Lists(keys, captures) && Lists(keys', captures)
    ensures RuleRecord(rule, captures, keys, req, user) == RuleRecord(rule, captures, keys', req, user)
  {
    hide EndpointRewrites, ExpandEndpoint, KubeVerb, WellFormedTemplate;
    match EndpointRewrites(req, rule.rewrites)
    case Err(_) =>
    case Ok(s) =>
      RewritesAreTame(req, rule.rewrites, absent);
      var ra := rule.attributes;
      ExpandEndpointIgnoresOrder(ra.namespace, s, captures, keys, keys', absent);
      ExpandEndpointIgnoresOrder(ra.apiGroup, s, captures, keys, keys', absent);
      ExpandEndpointIgnoresOrder(ra.apiVersion, s, captures, keys, keys', absent);
      ExpandEndpointIgnoresOrder(ra.resource, s, captures, keys, keys', absent);
      ExpandEndpointIgnoresOrder(ra.subresource, s, captures, keys, keys', absent);
      ExpandEndpointIgnoresOrder(ra.name, s, captures, keys, keys', absent);
      ExpandEndpointIgnoresOrder(ra.verb, s, captures, keys, keys', absent);
  }

  lemma {:induction false} RuleRecordsIgnoreOrder(rules: seq<Rule>, captures: Captures, keys: seq<string>, keys': seq<string>,
                                                 req: Request, user: Identity, absent: Brace)
    requires forall i | 0 <= i < |rules| :: WellFormedTemplates(rules[i].attributes, absent)
    requires TameRequest(req, absent) && TameCaptures(captures, absent)
    requires Lists(keys, captures) && Lists(keys', captures)
    ensures RuleRecords(rules, captures, keys, req, user) == RuleRecords(rules, captures, keys', req, user)
  {
    if rules != [] {
      RuleRecordIgnoresOrder(rules[0], captures, keys, keys', req, user, absent);
      RuleRecordsIgnoreOrder(rules[1..], captures, keys, keys', req, user, absent);
    }
  }

  ghost predicate WellFormedRules(cfg: AuthorizationConfig, absent: Brace)
  {
    forall e, m, r | 0 <= e < |cfg.endpoints| && 0 <= m < |cfg.endpoints[e].mappings|
                     && 0 <= r < |cfg.endpoints[e].mappings[m].resources| ::
      WellFormedTemplates(cfg.endpoints[e].mappings[m].resources[r].attributes, absent)
  }

  /**
    The records do not depend on the order in which hash maps iterate, when the endpoint
    templates are well-formed and one of the braces occurs neither in their text nor in any
    value taken from the request.
   */
  lemma RecordsIgnoreHashOrder(cfg: AuthorizationConfig, req: Request, user: Identity, lossy: LossyUtf8,
                               order: HashOrder, order': HashOrder, absent: Brace)
    requires ValidConfig(cfg) && WellFormedRules(cfg, absent) && TameRequest(req, absent)
    requires IsHashOrder(order) && IsHashOrder(order')
    requires forall i | 0 <= i < |Segments(req.path)| :: Free(DecodeSegment(Segments(req.path)[i], lossy), absent)
    ensures RecordsOf(cfg, req, user, Platform(lossy, order)) == RecordsOf(cfg, req, user, Platform(lossy, order'))
  {
    hide EndpointMatch, KubeVerb, ExpandEndpoint;
    FirstEndpointIsFirst(cfg.endpoints, req.path, lossy);
    match FirstEndpoint(cfg.endpoints, req.path, lossy)
    case None =>
    case Some(k) =>
      var endpoint := cfg.endpoints[k];
      var captures := EndpointMatch(endpoint.path, req.path, lossy).value;
      CapturesAreTame(endpoint.path, req.path, lossy, absent);
      match FirstMapping(endpoint.mappings, req.httpMethod)
      case None =>
      case Some(m) =>
        RuleRecordsIgnoreOrder(endpoint.mappings[m].resources, captures, order(captures), order'(captures), req, user, absent);
  }

  lemma CapturesAreTame(pattern: string, path: string, lossy: LossyUtf8, absent: Brace)
    requires EndpointMatch(pattern, path, lossy).Some?
    requires forall i | 0 <= i < |Segments(path)| :: Free(DecodeSegment(Segments(path)[i], lossy), absent)
    ensures TameCaptures(EndpointMatch(pattern, path, lossy).value, absent)
  {
    BindingsAreExact(pattern, path, lossy);
    var pp, m := Segments(pattern), EndpointMatch(pattern, path, lossy).value;
    assert SegmentsMatch(pp, Segments(path));
    hide EndpointMatch, DecodeSegment, Segments;
    forall k | k in m
      ensures BraceFree(k) && Free(m[k], absent)
    {
      BracedIsCapture(k);
      assert "{" + k + "}" in pp;
      var i :| 0 <= i < |pp| && pp[i] == "{" + k + "}";
      assert Accepts(pp[i], Segments(path)[i]);
      assert ValidName(k);
      ValidNameIsBraceFree(k);
    }
  }

  // ---------------------------------------------------------------- static rules

  /** An empty rule field accepts anything. */
  predicate Wildcard(rule: string, actual: string)
  {
    rule == "" || rule == actual
  }

  predicate RuleAllows(r: StaticRule, a: Attributes)
  {
    && Wildcard(r.user.name, a.user.name)
    && Wildcard(r.verb, a.verb)
    && Wildcard(r.namespace, a.namespace)
    && Wildcard(r.apiGroup, a.apiGroup)
    && Wildcard(r.resource, a.resource)
    && Wildcard(r.subresource, a.subresource)
    && Wildcard(r.name, a.name)
    && Wildcard(r.path, a.path)
    && r.resourceRequest == a.resourceRequest
  }

  predicate StaticAllows(rules: seq<StaticRule>, a: Attributes)
  {
    exists i | 0 <= i < |rules| :: RuleAllows(rules[i], a)
  }

  /** The rule's fields next to the record fields they are compared with. */
  function Compared(r: StaticRule, a: Attributes): seq<(string, string)>
  {
    [(r.user.name, a.user.name), (r.verb, a.verb), (r.namespace, a.namespace), (r.apiGroup, a.apiGroup),
     (r.resource, a.resource), (r.subresource, a.subresource), (r.name, a.name), (r.path, a.path)]
  }

  /** A denied record differs, for each rule of its kind, in a field the rule spells out. */
  lemma DeniedMeaning(rules: seq<StaticRule>, a: Attributes)
    ensures !StaticAllows(rules, a) <==>
              forall i | 0 <= i < |rules| && rules[i].resourceRequest == a.resourceRequest ::
                exists x | x in Compared(rules[i], a) :: x.0 != "" && x.0 != x.1
  {
    forall i | 0 <= i < |rules|
      ensures RuleAllows(rules[i], a) <==>
                rules[i].resourceRequest == a.resourceRequest && !exists x | x in Compared(rules[i], a) :: x.0 != "" && x.0 != x.1
    {
      ComparedFields(rules[i], a);
    }
    hide RuleAllows, Compared;
  }

  lemma ComparedFields(r: StaticRule, a: Attributes)
    ensures RuleAllows(r, a) <==>
              r.resourceRequest == a.resourceRequest && !exists x | x in Compared(r, a) :: x.0 != "" && x.0 != x.1
  {
    var c := Compared(r, a);
    assert c[0] in c && c[1] in c && c[2] in c && c[3] in c && c[4] in c && c[5] in c && c[6] in c && c[7] in c;
  }

  /** Adding rules never turns an allow into a deny. */
  lemma StaticAllowsIsMonotone(rules: seq<StaticRule>, before: seq<StaticRule>, after: seq<StaticRule>, a: Attributes)
    requires StaticAllows(rules, a)
    ensures StaticAllows(before + rules + after, a)
  {
    var i :| 0 <= i < |rules| && RuleAllows(rules[i], a);
    assert (before + rules + after)[|before| + i] == rules[i];
  }

  /** With valid rules: the path plays no part for resources, and is spelled out for the rest. */
  lemma ValidStaticRulesAndPaths(cfg: AuthorizationConfig, a: Attributes, path: string)
    requires ValidConfig(cfg)
    ensures a.resourceRequest ==> StaticAllows(cfg.staticRules, a) == StaticAllows(cfg.staticRules, a.(path := path))
    ensures !a.resourceRequest && StaticAllows(cfg.staticRules, a) ==>
              exists i | 0 <= i < |cfg.staticRules| :: cfg.staticRules[i].path == a.path != ""
  {
    var rules := cfg.staticRules;
    if a.resourceRequest {
      forall i | 0 <= i < |rules|
        ensures RuleAllows(rules[i], a) == RuleAllows(rules[i], a.(path := path))
      {
        assert ValidStaticRule(rules[i]);
      }
    } else if StaticAllows(rules, a) {
      var i :| 0 <= i < |rules| && RuleAllows(rules[i], a);
      assert ValidStaticRule(rules[i]);
    }
  }
}
