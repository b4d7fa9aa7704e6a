/**
  Two concrete requests on twins. The first one gets a wrong decision all by itself. The
  second one, of two requests, shows why a shared key is not always enough for that.
 */
module TwinRequests {
  import opened Wrappers
  import opened Config
  import opened Authorization
  import opened ReviewApi
  import opened Environment
  import opened Pipeline
  import opened EndToEnd
  import opened SharedKeys
  import opened TwinRuns
  import ConfigValidation
  import Templates

  // ---------------------------------------------------------------- one request alone

  /** Global attributes whose name alone is the rewrite value, taken from a query parameter. */
  predicate NamedByQuery(cfg: AuthorizationConfig, parameter: string)
  {
    && cfg.endpoints == [] && cfg.rewrites == Some(Rewrites(Some(parameter), None)) && cfg.resourceAttributes.Some?
    && var ra := cfg.resourceAttributes.value;
       && ra.name == "{{ .Value }}"
       && Templates.BraceFree(ra.namespace) && Templates.BraceFree(ra.apiGroup) && Templates.BraceFree(ra.apiVersion)
       && Templates.BraceFree(ra.resource) && Templates.BraceFree(ra.subresource)
  }

  /** The record of such a configuration that names `v`. */
  function NamedRecord(ra: ResourceAttributes, v: string, req: Request, user: Identity): Attributes
  {
    Attributes(user, if ra.verb == "" then KubeVerb(req.httpMethod) else ra.verb, ra.namespace, ra.apiGroup, ra.apiVersion,
               ra.resource, ra.subresource, v, true, req.path)
  }

  lemma PlainTextStays(text: string, v: string)
    requires Templates.BraceFree(text)
    ensures ExpandValueOnly(text, v) == text
  {
    Templates.TokenSpellings();
    Templates.ReplaceSkipsUnopened(text, "", " .Value ", v);
    assert text + "" == text;
  }

  lemma ValueTokenGives(v: string)
    ensures ExpandValueOnly("{{ .Value }}", v) == v
  {
    var token := "{{ .Value }}";
    assert token[|token|..] == "";
    assert v + "" == v;
  }

  lemma ValueRecordIsNamed(cfg: AuthorizationConfig, parameter: string, v: string, req: Request, user: Identity)
    requires NamedByQuery(cfg, parameter)
    ensures ValueRecord(cfg.resourceAttributes.value, v, req, user) == NamedRecord(cfg.resourceAttributes.value, v, req, user)
  {
    hide ExpandValueOnly, KubeVerb, Templates.BraceFree;
    var ra := cfg.resourceAttributes.value;
    PlainTextStays(ra.namespace, v);
    PlainTextStays(ra.apiGroup, v);
    PlainTextStays(ra.apiVersion, v);
    PlainTextStays(ra.resource, v);
    PlainTextStays(ra.subresource, v);
    ValueTokenGives(v);
  }

  lemma QueryValuesOfTwo(parameter: string, v: string, w: string)
    ensures QueryValues([(parameter, v), (parameter, w)], parameter) == [v, w]
  {
    var query := [(parameter, v), (parameter, w)];
    assert query[1..] == [(parameter, w)] && query[1..][1..] == [];
    assert QueryValues(query[1..][1..], parameter) == [];
    assert QueryValues(query[1..], parameter) == [w];
  }

  /** Two values of the parameter make two records under one key, posted differently. */
  lemma TwoNamesOneKey(cfg: AuthorizationConfig, parameter: string, v: string, w: string, req: Request, user: Identity, platform: Platform)
    requires Templates.IsHashOrder(platform.order) && NamedByQuery(cfg, parameter)
    requires req.query == [(parameter, v), (parameter, w)] && v != w
    ensures
      var x, y := NamedRecord(cfg.resourceAttributes.value, v, req, user), NamedRecord(cfg.resourceAttributes.value, w, req, user);
      && RecordsOf(cfg, req, user, platform) == Ok([x, y])
      && AccessKey(x) == AccessKey(y) && AccessReviewOf(x) != AccessReviewOf(y)
  {
    NoMatchMeansGlobal(cfg, req, user, platform);
    QueryValuesOfTwo(parameter, v, w);
    ValueRecordIsNamed(cfg, parameter, v, req, user);
    ValueRecordIsNamed(cfg, parameter, w, req, user);
    hide RecordsOf, ValueRecord, KubeVerb, QueryValues;
    assert CollectedValues(req, cfg.rewrites.value) == [v, w] + [] == [v, w];
    var ra := cfg.resourceAttributes.value;
    assert ValueRecords(ra, [v, w], req, user) == [NamedRecord(ra, v, req, user), NamedRecord(ra, w, req, user)];
  }

  /** The run in which one request asks about its two records, the second time in vain. */
  function TwoRecordRun(req: Request): seq<Action>
  {
    [Arrive(0, req), Ask(0), Evaluate(0), Finish(0), Ask(0)]
  }

  /**
    A request with two records that share a key is forwarded after one review, though the
    reviewer denies the second record.
   */
  lemma SecondRecordIsServedFirstVerdict(st: Settings, req: Request, users: Oracle, user: Identity, x: Attributes, y: Attributes)
    requires ValidSettings(st) && st.hasReviewer && Start(st, req) == AskingAccess(user, [x, y])
    requires !StaticAllows(st.config.staticRules, y)
    requires AccessKey(x) == AccessKey(y) && AccessReviewOf(x) != AccessReviewOf(y)
    ensures
      var oracle := Strict(users, Some(AccessReviewOf(y)));
      var s := Run(st, oracle, 0.0, TwoRecordRun(req));
      && PostDetermines(oracle) && Decide(st, req, oracle) == Respond(403)
      && s.requests == map[0 := Progress(req, Done(Forward(Some(user))), false)]
  {
    var oracle := Strict(users, Some(AccessReviewOf(y)));
    StrictGoesByPosts(users, Some(AccessReviewOf(y)));
    StagesOfTwo(st, req, users, user, x, y);
    MachineDecides(st, req, oracle);
    RunOfTwo(st, req, users, oracle, user, x, y);
  }

  lemma StagesOfTwo(st: Settings, req: Request, users: Oracle, user: Identity, x: Attributes, y: Attributes)
    requires ValidSettings(st) && st.hasReviewer && !StaticAllows(st.config.staticRules, y)
    requires AccessReviewOf(x) != AccessReviewOf(y)
    ensures
      var oracle := Strict(users, Some(AccessReviewOf(y)));
      var both, last := AskingAccess(user, [x, y]), AskingAccess(user, [y]);
      && oracle(AccessQuestion(x)) == Decided(true) && oracle(AccessQuestion(y)) == Decided(false)
      && Resume(st, req, both, Decided(true)) == last && Resume(st, req, last, Decided(true)) == Done(Forward(Some(user)))
      && Conclude(st, req, both, oracle) == Respond(403)
  {
    hide StaticAllows, AccessReviewOf, RecordsOf, Authenticate, BeginAuthorization;
    var oracle := Strict(users, Some(AccessReviewOf(y)));
    assert [x, y][1..] == [y] && [y][1..] == [];
    assert Authorize(st, user, [y]) == AskingAccess(user, [y]);
    assert PostOf(AccessQuestion(x)) == Some(AccessReviewOf(x)) && PostOf(AccessQuestion(y)) == Some(AccessReviewOf(y));
    var both, last := AskingAccess(user, [x, y]), AskingAccess(user, [y]);
    assert Resume(st, req, last, Decided(false)) == Done(Respond(403));
    MoreToAsk(st, oracle, req, both);
    MoreToAsk(st, oracle, req, last);
    ConcludeDone(st, req, Respond(403), oracle);
  }

  lemma RunOfTwo(st: Settings, req: Request, users: Oracle, oracle: Oracle, user: Identity, x: Attributes, y: Attributes)
    requires ValidSettings(st) && Start(st, req) == AskingAccess(user, [x, y]) && st.hasReviewer
    requires oracle(AccessQuestion(x)) == Decided(true)
    requires
      var both, last := AskingAccess(user, [x, y]), AskingAccess(user, [y]);
      Resume(st, req, both, Decided(true)) == last && Resume(st, req, last, Decided(true)) == Done(Forward(Some(user)))
    requires AccessKey(x) == AccessKey(y)
    ensures Run(st, oracle, 0.0, TwoRecordRun(req)).requests == map[0 := Progress(req, Done(Forward(Some(user))), false)]
  {
    SameAccessKey(x, y);
    hide *;
    var lenient := Lenient(users);
    CalmAtFirst(st, lenient, oracle, 0.0);
    ArriveCalmly(st, lenient, oracle, 0.0, [], 0, req);
    assert [Arrive(0, req)] == [] + [Arrive(0, req)];
    var s1 := Run(st, oracle, 0.0, [Arrive(0, req)]);
    assert s1.requests == map[0 := Progress(req, AskingAccess(user, [x, y]), false)];
    NothingCached(st, oracle, 0.0);
    TwoRecordRunIs(req);
    RunOfFive(st, oracle, 0.0, TwoRecordRun(req));
    MissThenHit(st, req, users, oracle, s1, user, x, y);
  }

  lemma SameAccessKey(x: Attributes, y: Attributes)
    requires AccessKey(x) == AccessKey(y)
    ensures KeyOf(AccessQuestion(x)) == KeyOf(AccessQuestion(y))
  {
  }

  lemma TwoRecordRunIs(req: Request)
    ensures TwoRecordRun(req) == [Arrive(0, req), Ask(0), Evaluate(0), Finish(0), Ask(0)]
  {
  }

  lemma MissThenHit(st: Settings, req: Request, users: Oracle, oracle: Oracle, s: System, user: Identity, x: Attributes, y: Attributes)
    requires EndToEnd.WellFormed(st, s) && st.hasReviewer && Calm(Lenient(users), s.reviews)
    requires s.requests == map[0 := Progress(req, AskingAccess(user, [x, y]), false)] && KeyOf(AccessQuestion(x)) !in s.reviews.cache
    requires oracle(AccessQuestion(x)) == Decided(true) && KeyOf(AccessQuestion(x)) == KeyOf(AccessQuestion(y))
    requires
      var both, last := AskingAccess(user, [x, y]), AskingAccess(user, [y]);
      Resume(st, req, both, Decided(true)) == last && Resume(st, req, last, Decided(true)) == Done(Forward(Some(user)))
    ensures
      var s' := Step(st, oracle, Step(st, oracle, Step(st, oracle, s, Ask(0)), Evaluate(0)), Finish(0));
      Step(st, oracle, s', Ask(0)).requests == map[0 := Progress(req, Done(Forward(Some(user))), false)]
  {
    var p, q := AccessQuestion(x), AccessQuestion(y);
    assert Lenient(users)(p) == Lenient(users)(q) == Decided(true);
    hide Resume, KeyOf, Calm, Step, Lenient, KeepsKeys;
    assert Pending(s, 0) == Some(p);
    DriveMiss(st, users, oracle, s, 0);
    var s' := Step(st, oracle, Step(st, oracle, Step(st, oracle, s, Ask(0)), Evaluate(0)), Finish(0));
    assert s'.requests == map[0 := Progress(req, AskingAccess(user, [y]), false)];
    assert Pending(s', 0) == Some(q);
    DriveHit(st, Lenient(users), oracle, s', 0);
    hide Pending;
  }

  lemma NothingCached(st: Settings, oracle: Oracle, start: real)
    requires ValidSettings(st)
    ensures Run(st, oracle, start, []).reviews.cache == map[]
  {
  }

  lemma RunOfFive(st: Settings, oracle: Oracle, start: real, actions: seq<Action>)
    requires ValidSettings(st) && |actions| == 5
    ensures
      var s2 := Step(st, oracle, Run(st, oracle, start, [actions[0]]), actions[1]);
      Run(st, oracle, start, actions) == Step(st, oracle, Step(st, oracle, Step(st, oracle, s2, actions[2]), actions[3]), actions[4])
  {
    hide *;
    RunMore(st, oracle, start, [actions[0]], actions[1]);
    RunMore(st, oracle, start, [actions[0]] + [actions[1]], actions[2]);
    RunMore(st, oracle, start, [actions[0]] + [actions[1]] + [actions[2]], actions[3]);
    RunMore(st, oracle, start, [actions[0]] + [actions[1]] + [actions[2]] + [actions[3]], actions[4]);
    assert [actions[0]] + [actions[1]] + [actions[2]] + [actions[3]] + [actions[4]] == actions;
  }

  /** Certificate users, no static rules, and services named by the query parameter `name`. */
  function MetricsSettings(platform: Platform): Settings
  {
    Settings(
      AuthorizationConfig(Some(Rewrites(Some("name"), None)),
                          Some(ResourceAttributes("default", "", "v1", "services", "", "{{ .Value }}", "get")), [], []),
      [], [], [ClientCertificate("")], true, platform)
  }

  /** `GET /metrics?name=one&name=two`, from the bearer of a certificate. */
  function MetricsRequest(): Request
  {
    WithCertificate(Request("GET", "/metrics", [("name", "one"), ("name", "two")], []), Some("someone"))
  }

  lemma MetricsUser()
    ensures CertificateUser(MetricsRequest(), "") == Some(Identity("someone", []))
  {
    var req := Request("GET", "/metrics", [("name", "one"), ("name", "two")], []);
    CertificateDecidesUser(req, Some("someone"), "");
    assert HeaderText("someone") == Some("someone");
    hide CertificateUser, WithCertificate, HeaderText;
    assert "" + "someone" == "someone";
  }

  lemma MetricsIsNamedByQuery(platform: Platform)
    ensures NamedByQuery(MetricsSettings(platform).config, "name") && ConfigValidation.ValidConfig(MetricsSettings(platform).config)
  {
  }

  lemma MetricsRecords(platform: Platform) returns (x: Attributes, y: Attributes)
    requires Templates.IsHashOrder(platform.order)
    ensures RecordsOf(MetricsSettings(platform).config, MetricsRequest(), Identity("someone", []), platform) == Ok([x, y])
    ensures AccessKey(x) == AccessKey(y) && AccessReviewOf(x) != AccessReviewOf(y)
  {
    var cfg, req, user := MetricsSettings(platform).config, MetricsRequest(), Identity("someone", []);
    MetricsIsNamedByQuery(platform);
    assert "one"[0] != "two"[0];
    hide RecordsOf, AccessKey, AccessReviewOf, NamedByQuery, NamedRecord;
    x, y := NamedRecord(cfg.resourceAttributes.value, "one", req, user), NamedRecord(cfg.resourceAttributes.value, "two", req, user);
    TwoNamesOneKey(cfg, "name", "one", "two", req, user, platform);
  }

  lemma MetricsStart(platform: Platform, x: Attributes, y: Attributes)
    requires Templates.IsHashOrder(platform.order)
    requires RecordsOf(MetricsSettings(platform).config, MetricsRequest(), Identity("someone", []), platform) == Ok([x, y])
    ensures Start(MetricsSettings(platform), MetricsRequest()) == AskingAccess(Identity("someone", []), [x, y])
    ensures !StaticAllows(MetricsSettings(platform).config.staticRules, y)
  {
    MetricsUser();
    hide RecordsOf, CertificateUser, MetricsRequest;
  }

  /**
    A single request that gets the wrong decision: the reviewer allows the service `one` and
    denies the service `two`, the two records have one key, and the request is forwarded on
    the first one's verdict, where a filter that asks directly answers 403.
   */
  lemma OneRequestBreaksRefinement(platform: Platform) returns (oracle: Oracle)
    requires Templates.IsHashOrder(platform.order)
    ensures
      var st, req := MetricsSettings(platform), MetricsRequest();
      var s := Run(st, oracle, 0.0, TwoRecordRun(req));
      && ConfigValidation.ValidConfig(st.config) && PostDetermines(oracle)
      && s.requests == map[0 := Progress(req, Done(Forward(Some(Identity("someone", [])))), false)]
      && Decide(st, req, oracle) == Respond(403)
  {
    hide *;
    MetricsIsNamedByQuery(platform);
    var x, y := MetricsRecords(platform);
    MetricsStart(platform, x, y);
    MetricsHasReviewer(platform);
    var users: Oracle := q => Failed;
    oracle := Strict(users, Some(AccessReviewOf(y)));
    SecondRecordIsServedFirstVerdict(MetricsSettings(platform), MetricsRequest(), users, Identity("someone", []), x, y);
  }

  /** So those settings do not refine the direct filter, taken over all requests and users. */
  lemma MetricsDoesNotRefine(platform: Platform)
    requires Templates.IsHashOrder(platform.order)
    ensures !AlwaysRefines(MetricsSettings(platform), Everything()) && !NoTwins(MetricsSettings(platform), Everything())
  {
    MetricsHasReviewer(platform);
    var st, req := MetricsSettings(platform), MetricsRequest();
    var oracle := OneRequestBreaksRefinement(platform);
    assert KnownUsers(Everything(), oracle) && Arrivals(Everything(), TwoRecordRun(req));
    hide Run, Decide, MetricsSettings, MetricsRequest, TwoRecordRun, Everything, KnownUsers, Arrivals, PostDetermines;
    assert 0 in Run(st, oracle, 0.0, TwoRecordRun(req)).requests;
    assert !RefinesDirectFilter(st, oracle, Run(st, oracle, 0.0, TwoRecordRun(req)).requests[0]);
    AlwaysRefinesIffNoTwins(st, Everything());
  }

  lemma MetricsHasReviewer(platform: Platform)
    requires Templates.IsHashOrder(platform.order)
    ensures ValidSettings(MetricsSettings(platform)) && MetricsSettings(platform).hasReviewer
  {
  }

  // ---------------------------------------------------------------- why earlier posts matter

  /** Certificate users, no static rules, and resources taken from the query parameter `name`. */
  function ResourceSettings(platform: Platform): Settings
  {
    Settings(
      AuthorizationConfig(Some(Rewrites(Some("name"), None)),
                          Some(ResourceAttributes("", "", "", "{{ .Value }}", "", "", "get")), [], []),
      [], [], [ClientCertificate("")], true, platform)
  }

  function ResourceRecord(req: Request, resource: string): Attributes
  {
    Attributes(Identity("someone", []), "get", "", "", "", resource, "", "", true, req.path)
  }

  function ResourceRequest(path: string, first: string, second: string): Request
  {
    WithCertificate(Request("GET", path, [("name", first), ("name", second)], []), Some("someone"))
  }

  lemma ResourceUser(path: string, first: string, second: string)
    ensures CertificateUser(ResourceRequest(path, first, second), "") == Some(Identity("someone", []))
  {
    CertificateDecidesUser(Request("GET", path, [("name", first), ("name", second)], []), Some("someone"), "");
    assert HeaderText("someone") == Some("someone");
    hide CertificateUser, WithCertificate, HeaderText;
    assert "" + "someone" == "someone";
  }

  lemma ResourceRecords(platform: Platform, path: string, first: string, second: string)
    requires Templates.IsHashOrder(platform.order)
    ensures
      var req := ResourceRequest(path, first, second);
      RecordsOf(ResourceSettings(platform).config, req, Identity("someone", []), platform)
        == Ok([ResourceRecord(req, first), ResourceRecord(req, second)])
  {
    var cfg, req, user := ResourceSettings(platform).config, ResourceRequest(path, first, second), Identity("someone", []);
    NoMatchMeansGlobal(cfg, req, user, platform);
    QueryValuesOfTwo("name", first, second);
    PlainTextStays("", first);
    PlainTextStays("", second);
    ValueTokenGives(first);
    ValueTokenGives(second);
    hide RecordsOf, QueryValues, ExpandValueOnly, CertificateHeader;
    assert CollectedValues(req, cfg.rewrites.value) == [first, second] + [] == [first, second];
    assert ValueRecords(cfg.resourceAttributes.value, [first, second], req, user)
        == [ResourceRecord(req, first), ResourceRecord(req, second)];
  }

  lemma ResourceReviews(platform: Platform, path: string, first: string, second: string, users: Oracle)
    requires Templates.IsHashOrder(platform.order)
    ensures
      var req := ResourceRequest(path, first, second);
      ToReview(ResourceSettings(platform), req, users)
        == [AccessQuestion(ResourceRecord(req, first)), AccessQuestion(ResourceRecord(req, second))]
  {
    ResourceUser(path, first, second);
    ResourceRecords(platform, path, first, second);
    hide RecordsOf, CertificateUser, ResourceRequest;
    var st, req := ResourceSettings(platform), ResourceRequest(path, first, second);
    assert WhoIs(req, st.chain, users) == Identified(Some(Identity("someone", [])));
    NeedReviewOfTwo(st, ResourceRecord(req, first), ResourceRecord(req, second));
  }

  lemma NeedReviewOfTwo(st: Settings, x: Attributes, y: Attributes)
    requires st.config.staticRules == []
    ensures NeedReview(st, [x, y]) == [AccessQuestion(x), AccessQuestion(y)]
  {
    assert [x, y][1..] == [y] && [y][1..] == [];
    assert NeedReview(st, [y]) == [AccessQuestion(y)] + NeedReview(st, []);
  }

  lemma ResourceKeys(p: string, q: string, resource: string, other: string)
    ensures
      var x := Attributes(Identity("someone", []), "get", "", "", "", resource, "", "", true, p);
      var y := Attributes(Identity("someone", []), "get", "", "", "", other, "", "", true, q);
      && (AccessKey(x) == AccessKey(y) <==> resource + "|" + p == other + "|" + q)
      && (AccessReviewOf(x) == AccessReviewOf(y) <==> resource == other)
  {
    var x := Attributes(Identity("someone", []), "get", "", "", "", resource, "", "", true, p);
    var y := Attributes(Identity("someone", []), "get", "", "", "", other, "", "", true, q);
    var front := "someone" + "|" + "get" + "|" + "" + "|" + "" + "|" + "" + "|";
    assert AccessKey(x) == front + (resource + "|" + p) && AccessKey(y) == front + (other + "|" + q);
    assert AccessKey(x)[|front|..] == resource + "|" + p && AccessKey(y)[|front|..] == other + "|" + q;
  }

  /** Two requests of two records each, in opposite orders; their second records share a key. */
  function FirstOfPair(): Request
  {
    ResourceRequest("/z", "x", "x|/q")
  }

  function SecondOfPair(): Request
  {
    ResourceRequest("/q|/z", "x|/q", "x")
  }

  function FirstReviews(): seq<Question>
  {
    [AccessQuestion(ResourceRecord(FirstOfPair(), "x")), AccessQuestion(ResourceRecord(FirstOfPair(), "x|/q"))]
  }

  function SecondReviews(): seq<Question>
  {
    [AccessQuestion(ResourceRecord(SecondOfPair(), "x|/q")), AccessQuestion(ResourceRecord(SecondOfPair(), "x"))]
  }

  lemma PairReviews(platform: Platform, users: Oracle)
    requires Templates.IsHashOrder(platform.order)
    ensures ToReview(ResourceSettings(platform), FirstOfPair(), users) == FirstReviews()
    ensures ToReview(ResourceSettings(platform), SecondOfPair(), users) == SecondReviews()
  {
    ResourceReviews(platform, "/z", "x", "x|/q", users);
    ResourceReviews(platform, "/q|/z", "x|/q", "x", users);
    hide ToReview, ResourceRequest, ResourceRecord, ResourceSettings;
  }

  /** Keys and posts of two such records, by their resources and paths. */
  lemma ResourceQuestions(r1: Request, r2: Request, resource: string, other: string)
    ensures
      var p, q := AccessQuestion(ResourceRecord(r1, resource)), AccessQuestion(ResourceRecord(r2, other));
      && (KeyOf(p) == KeyOf(q) <==> resource + "|" + r1.path == other + "|" + r2.path)
      && (PostOf(p) == PostOf(q) <==> resource == other)
  {
    ResourceKeys(r1.path, r2.path, resource, other);
    hide AccessKey, AccessReviewOf;
  }

  lemma PairPaths()
    ensures FirstOfPair().path == "/z" && SecondOfPair().path == "/q|/z"
  {
  }

  lemma PairFacts()
    ensures
      var xs, ys := FirstReviews(), SecondReviews();
      && KeyOf(xs[0]) != KeyOf(xs[1]) && KeyOf(ys[0]) != KeyOf(ys[1])
      && KeyOf(xs[0]) != KeyOf(ys[0]) && KeyOf(xs[0]) != KeyOf(ys[1]) && KeyOf(xs[1]) != KeyOf(ys[0])
      && KeyOf(xs[1]) == KeyOf(ys[1]) && PostOf(xs[1]) != PostOf(ys[1])
      && PostOf(xs[0]) == PostOf(ys[1]) && PostOf(ys[0]) == PostOf(xs[1])
  {
    PairPaths();
    var r1, r2 := FirstOfPair(), SecondOfPair();
    var x, y := "x", "x|/q";
    assert |x| == 1 && |y| == 4 && |r1.path| == 2 && |r2.path| == 5;
    assert x + "|" + r2.path == y + "|" + r1.path;
    hide KeyOf, PostOf, FirstOfPair, SecondOfPair, ResourceRecord;
    ResourceQuestions(r1, r1, x, y);
    ResourceQuestions(r2, r2, y, x);
    ResourceQuestions(r1, r2, x, y);
    ResourceQuestions(r1, r2, x, x);
    ResourceQuestions(r1, r2, y, y);
    ResourceQuestions(r1, r2, y, x);
  }

  /** Lists of two in which the second ones share a key and each one's post comes first in the other list. */
  lemma OppositeOrdersHaveNoTwins(xs: seq<Question>, ys: seq<Question>, i: nat, j: nat)
    requires |xs| == |ys| == 2
    requires KeyOf(xs[0]) != KeyOf(ys[0]) && KeyOf(xs[0]) != KeyOf(ys[1]) && KeyOf(xs[1]) != KeyOf(ys[0])
    requires PostOf(xs[0]) == PostOf(ys[1])
    ensures !Twins(xs, i, ys, j)
  {
    hide KeyOf, PostOf;
  }

  lemma DifferentKeysHaveNoTwins(xs: seq<Question>, i: nat, j: nat)
    requires |xs| == 2 && KeyOf(xs[0]) != KeyOf(xs[1])
    ensures !Twins(xs, i, xs, j)
  {
    hide KeyOf, PostOf;
  }

  lemma PairHasNoTwins(i: nat, j: nat)
    ensures !Twins(FirstReviews(), i, FirstReviews(), j) && !Twins(FirstReviews(), i, SecondReviews(), j)
    ensures !Twins(SecondReviews(), i, FirstReviews(), j) && !Twins(SecondReviews(), i, SecondReviews(), j)
  {
    PairFacts();
    assert |FirstReviews()| == |SecondReviews()| == 2;
    hide FirstReviews, SecondReviews, KeyOf, PostOf, Twins;
    DifferentKeysHaveNoTwins(FirstReviews(), i, j);
    DifferentKeysHaveNoTwins(SecondReviews(), i, j);
    OppositeOrdersHaveNoTwins(FirstReviews(), SecondReviews(), i, j);
    OppositeOrdersHaveNoTwins(SecondReviews(), FirstReviews(), i, j);
  }

  /** The two requests as a scope. */
  function PairScope(): Scope
  {
    Scope(r => r == FirstOfPair() || r == SecondOfPair(), u => true)
  }

  lemma PairScopeHasNoTwins(platform: Platform)
    requires Templates.IsHashOrder(platform.order)
    ensures NoTwins(ResourceSettings(platform), PairScope())
  {
    assert ValidSettings(ResourceSettings(platform));
    hide ToReview, ResourceSettings, FirstOfPair, SecondOfPair, FirstReviews, SecondReviews, Twins, KnownUsers;
    var st, scope := ResourceSettings(platform), PairScope();
    forall users: Oracle, r1, r2, i: nat, j: nat | KnownUsers(scope, users) && scope.requests(r1) && scope.requests(r2)
      ensures !Twins(ToReview(st, r1, users), i, ToReview(st, r2, users), j)
    {
      PairReviews(platform, users);
      PairHasNoTwins(i, j);
    }
  }

  /**
    The clause on earlier posts cannot be dropped: here two requests ask about records that
    share a key and are posted differently, and yet all decisions in all runs of the two are
    right. Whoever denies one of the records denies the other one's forerunner.
   */
  lemma ShadowedPairIsHarmless(platform: Platform, users: Oracle)
    requires Templates.IsHashOrder(platform.order)
    ensures
      var st := ResourceSettings(platform);
      var xs, ys := ToReview(st, FirstOfPair(), users), ToReview(st, SecondOfPair(), users);
      && |xs| == |ys| == 2 && KeyOf(xs[1]) == KeyOf(ys[1]) && PostOf(xs[1]) != PostOf(ys[1])
      && AlwaysRefines(st, PairScope())
  {
    assert |FirstReviews()| == |SecondReviews()| == 2;
    hide *;
    PairReviews(platform, users);
    PairFacts();
    PairScopeHasNoTwins(platform);
    AlwaysRefinesIffNoTwins(ResourceSettings(platform), PairScope());
  }
}
