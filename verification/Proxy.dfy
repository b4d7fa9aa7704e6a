/**
  The proxy object: the request filter with its shared counter, its authenticators and its
  reviewer, and the filter that writes identity headers on the upstream request.
 */
module Proxy {
  import opened Wrappers
  import opened Text
  import opened Config
  import opened Templates
  import opened Authorization
  import opened PathFilter
  import opened Environment
  import opened Kube
  import opened Oidc
  import opened Pipeline
  import opened Selections

  /** What the filter does with a request: it answers itself, or hands over to the stages. */
  datatype Reaction = Healthy | Metrics(count: nat) | Filtered(outcome: Pipeline.Outcome)

  /** The counter is a 64-bit one and wraps. */
  const COUNTER_SIZE: nat := 0x1_0000_0000_0000_0000

  /** What one request carries from filter to filter. */
  class RequestContext {
    var identity: Option<Identity>

    constructor ()
      ensures identity == None
    {
      identity := None;
    }
  }

  predicate IsTokenChar(c: char)
  {
    IsAsciiAlphabetic(c) || IsAsciiDigit(c) || c in "!#$%&'*+-.^_`|~"
  }

  /** The token characters of section 5.6.2 of RFC 9110. */
  lemma TokenCharBySpelling(c: char)
    ensures IsTokenChar(c) <==> c in LowerLetters() || c in UpperLetters() || c in Digits() || c in "!#$%&'*+-.^_`|~"
  {
    AsciiClasses(c);
    hide IsAsciiAlphabetic, IsAsciiDigit, LowerLetters, UpperLetters, Digits;
  }

  predicate ValidHeaderName(name: string)
  {
    name != "" && forall i | 0 <= i < |name| :: IsTokenChar(name[i])
  }

  predicate ValidHeaderValue(value: string)
  {
    forall i | 0 <= i < |value| :: value[i] == '\t' || (value[i] >= ' ' && value[i] as int != 127)
  }

  /** A header value is made of tabs and anything from space on but the delete character. */
  lemma HeaderValueByCode(value: string)
    ensures ValidHeaderValue(value) <==> forall i | 0 <= i < |value| :: value[i] as int == 9 || 32 <= value[i] as int != 127
  {
  }

  /** The counter has sixty-four bits. */
  lemma CounterSize()
    ensures COUNTER_SIZE == 18446744073709551616
  {
  }

  /** The values of all fields of that name, up to letter case; `None` for one that is not text. */
  function Fields(headers: seq<Header>, name: string): seq<Option<string>>
  {
    if headers == [] then []
    else (if headers[0].name == AsciiLower(name) then [headers[0].value] else []) + Fields(headers[1..], name)
  }

  function FieldNamed(name: string): Header -> Option<Option<string>>
  {
    (h: Header) => if EqualIgnoringCase(h.name, name) then Some(h.value) else None
  }

  /** They are those of every field of the name, in order. */
  lemma {:induction false} FieldsAreAll(headers: seq<Header>, name: string)
    requires LowerNames(headers)
    ensures IsSelection(headers, Fields(headers, name), FieldNamed(name))
  {
    hide AsciiLower, EqualIgnoringCase, UpperLetters, IsSelection;
    if headers == [] {
      SelectsNone(FieldNamed(name));
    } else {
      LowerNameMatches(headers[0].name, name);
      FieldsAreAll(headers[1..], name);
      SelectsMore(headers, Fields(headers[1..], name), FieldNamed(name));
      assert [] + Fields(headers[1..], name) == Fields(headers[1..], name);
    }
  }

  /** The header of the upstream request, at first that of the request itself; names are in lower case. */
  class UpstreamHeader {
    var fields: seq<Header>

    constructor (fields: seq<Header>)
      ensures this.fields == fields
    {
      this.fields := fields;
    }

    /** Replaces every field of that name; fails, changing nothing, on text a header cannot hold. */
    method Insert(name: string, value: string) returns (ok: bool)
      modifies this
      ensures ok <==> ValidHeaderName(name) && ValidHeaderValue(value)
      ensures ok ==> forall other ::
                Fields(fields, other) == if AsciiLower(other) == AsciiLower(name) then [Some(value)] else Fields(old(fields), other)
      ensures !ok ==> fields == old(fields)
    {
      ok := ValidHeaderName(name) && ValidHeaderValue(value);
      if ok {
        InsertedField(fields, name, value);
        fields := Without(fields, AsciiLower(name)) + [Header(AsciiLower(name), Some(value))];
      }
    }
  }

  lemma {:induction false} InsertedField(fields: seq<Header>, name: string, value: string)
    ensures
      var after := Without(fields, AsciiLower(name)) + [Header(AsciiLower(name), Some(value))];
      forall other ::
        Fields(after, other) == if AsciiLower(other) == AsciiLower(name) then [Some(value)] else Fields(fields, other)
  {
    hide AsciiLower;
    var lower := AsciiLower(name);
    var last := [Header(lower, Some(value))];
    assert last[1..] == [];
    if fields == [] {
      assert Without(fields, lower) + last == last;
      assert forall other :: Fields(last[1..], other) == [];
    } else {
      InsertedField(fields[1..], name, value);
      var rest := Without(fields[1..], lower) + last;
      var after := Without(fields, lower) + last;
      if fields[0].name == lower {
        assert after == rest;
      } else {
        assert after[0] == fields[0] && after[1..] == rest;
      }
    }
  }

  // ---------------------------------------------------------------- what the upstream sees

  /** Whether and how an identity is written on the upstream request. */
  datatype IdentityHeaders = IdentityHeaders(enabled: bool, user: string, groups: string, separator: string)

  predicate Writes(h: IdentityHeaders, identity: Option<Identity>)
  {
    h.enabled && identity.Some?
  }

  /** Both headers can hold what is to be written. */
  predicate HeadersHold(h: IdentityHeaders, user: Identity)
  {
    && ValidHeaderName(h.user) && ValidHeaderValue(user.name)
    && ValidHeaderName(h.groups) && ValidHeaderValue(Join(user.groups, h.separator))
  }

  /**
    What the upstream sees under a name: the identity under the two configured ones, the
    groups last, when it is written; otherwise what the caller sent under that name.
   */
  function SeenUpstream(h: IdentityHeaders, own: seq<Header>, identity: Option<Identity>, name: string): seq<Option<string>>
  {
    if Writes(h, identity) && AsciiLower(name) == AsciiLower(h.groups) then [Some(Join(identity.value.groups, h.separator))]
    else if Writes(h, identity) && AsciiLower(name) == AsciiLower(h.user) then [Some(identity.value.name)]
    else Fields(own, name)
  }

  /**
    The identity headers that the upstream sees are beyond the caller's reach exactly when
    they are switched on and the request has an identity.
   */
  lemma IdentityIsNotTheCallersIffWritten(h: IdentityHeaders, identity: Option<Identity>, name: string)
    requires name == h.user || name == h.groups
    ensures (forall own, other :: SeenUpstream(h, own, identity, name) == SeenUpstream(h, other, identity, name))
            <==> Writes(h, identity)
  {
    hide AsciiLower, Join;
    if !Writes(h, identity) {
      var own := [Header(AsciiLower(name), Some("someone"))];
      assert own[1..] == [];
      assert Fields(own, name) == [Some("someone")];
      assert SeenUpstream(h, own, identity, name) != SeenUpstream(h, [], identity, name);
    }
  }

  /** What consulting one authenticator comes to: at most one question, whose answer it is. */
  ghost predicate Consulted(req: Request, authenticator: Authenticator, answer: Answer, asked: seq<Exchange>)
  {
    match authenticator
    case ClientCertificate(prefix) => answer == Identified(CertificateUser(req, prefix)) && asked == []
    case OidcToken =>
      (answer.Failed? || answer.Identified?) &&
      (match BearerToken(req)
       case Some(token) => asked == [Exchange(OidcQuestion(token), answer)]
       case None => answer == Identified(None) && asked == [])
    case KubernetesToken =>
      (answer.Failed? || answer.Identified?) &&
      (match BearerToken(req)
       case Some(token) => asked == [Exchange(TokenQuestion(token), answer)]
       case None => answer == Identified(None) && asked == [])
  }

  /** Where an authenticator's answer leads, with `rest` of the chain still to try. */
  function AfterChain(st: Settings, req: Request, who: Answer, rest: seq<Authenticator>): Stage
    requires ValidSettings(st)
  {
    match who
    case Identified(Some(user)) => BeginAuthorization(st, req, user)
    case Identified(None) => Authenticate(st, req, rest)
    case _ => Done(InternalError)
  }

  lemma PlayNothing(st: Settings, req: Request, chain: seq<Authenticator>)
    requires ValidSettings(st)
    ensures Play(st, req, Authenticate(st, req, chain), []) == Some(Authenticate(st, req, chain[0..]))
    ensures Authenticate(st, req, []) == Done(Respond(401))
    ensures chain[|chain|..] == []
  {
    assert chain[0..] == chain;
  }

  lemma PlayDone(st: Settings, req: Request, outcome: Pipeline.Outcome)
    requires ValidSettings(st)
    ensures Play(st, req, Done(outcome), []) == Some(Done(outcome))
  {
  }

  lemma Concatenation<T>(a: seq<T>, b: seq<T>, c: seq<T>)
    ensures a + b + c == a + (b + c)
  {
  }

  lemma ChainThenRecords(st: Settings, req: Request, chain: seq<Authenticator>, user: Identity,
                         first: seq<Exchange>, second: seq<Exchange>, outcome: Pipeline.Outcome)
    requires ValidSettings(st)
    requires Play(st, req, Authenticate(st, req, chain), first) == Some(AfterChain(st, req, Identified(Some(user)), []))
    requires Play(st, req, BeginAuthorization(st, req, user), second) == Some(Done(outcome))
    ensures Play(st, req, Authenticate(st, req, chain), first + second) == Some(Done(outcome))
  {
    hide BeginAuthorization, Authenticate;
    PlayAppend(st, req, Authenticate(st, req, chain), first, second);
  }

  lemma ConsultedAdvances(st: Settings, req: Request, chain: seq<Authenticator>, answer: Answer, asked: seq<Exchange>)
    requires ValidSettings(st) && chain != [] && Consulted(req, chain[0], answer, asked)
    ensures Play(st, req, Authenticate(st, req, chain), asked) == Some(AfterChain(st, req, answer, chain[1..]))
    ensures answer != Identified(None) ==> AfterChain(st, req, answer, chain[1..]) == AfterChain(st, req, answer, [])
  {
    hide BearerToken, CertificateUser, BeginAuthorization;
    if asked != [] {
      assert asked[1..] == [];
      var next := Resume(st, req, Authenticate(st, req, chain), answer);
      assert Play(st, req, next, asked[1..]) == Some(next);
    }
  }

  class Proxy {
    const world: World
    const client: KubernetesClient?
    const oidc: OidcAuthenticator?
    const config: AuthorizationConfig
    const allow: seq<string>
    const ignore: seq<string>
    const chain: seq<Authenticator>
    const platform: Platform
    const operationalEndpoints: bool
    const authHeaders: bool
    const userHeader: string
    const groupsHeader: string
    const groupSeparator: string
    var requestsTotal: nat

    ghost function TheSettings(): Settings
    {
      Settings(config, allow, ignore, chain, client != null, platform)
    }

    ghost predicate Valid()
      reads this, world, client, oidc
    {
      && ValidSettings(TheSettings())
      && (client != null ==> client.world == world && client.Valid())
      && (oidc != null ==> oidc.world == world && oidc.CacheNotInFuture())
      && (KubernetesToken in chain ==> client != null)
      && (OidcToken in chain ==> oidc != null)
    }

    constructor (world: World, client: KubernetesClient?, oidc: OidcAuthenticator?, config: AuthorizationConfig,
                 allow: seq<string>, ignore: seq<string>, chain: seq<Authenticator>, platform: Platform,
                 operationalEndpoints: bool, authHeaders: bool, userHeader: string, groupsHeader: string, groupSeparator: string)
      requires IsHashOrder(platform.order)
      requires client != null ==> client.world == world && client.Valid()
      requires oidc != null ==> oidc.world == world && oidc.CacheNotInFuture()
      requires (KubernetesToken in chain ==> client != null) && (OidcToken in chain ==> oidc != null)
      ensures Valid() && requestsTotal == 0
      ensures this.world == world && this.client == client && this.oidc == oidc && this.config == config
      ensures this.allow == allow && this.ignore == ignore && this.chain == chain && this.platform == platform
      ensures this.operationalEndpoints == operationalEndpoints && this.authHeaders == authHeaders
      ensures this.userHeader == userHeader && this.groupsHeader == groupsHeader && this.groupSeparator == groupSeparator
    {
      this.world, this.client, this.oidc := world, client, oidc;
      this.config, this.allow, this.ignore := config, allow, ignore;
      this.chain, this.platform := chain, platform;
      this.operationalEndpoints, this.authHeaders := operationalEndpoints, authHeaders;
      this.userHeader, this.groupsHeader, this.groupSeparator := userHeader, groupsHeader, groupSeparator;
      this.requestsTotal := 0;
    }

    /** Consults one authenticator. */
    method Consult(req: Request, authenticator: Authenticator) returns (answer: Answer, ghost asked: seq<Exchange>)
      requires Valid() && authenticator in chain
      modifies world, client, oidc
      ensures Valid() && world.exchanges == old(world.exchanges) + asked
      ensures Consulted(req, authenticator, answer, asked)
      ensures forall x | x in asked :: !x.question.AccessQuestion? && ReadsBearer(req, x.question.token)
      ensures asked == [] <==> authenticator.ClientCertificate? || forall token :: !ReadsBearer(req, token)
    {
      hide ReadsBearer, BearerToken, CertificateUser;
      forall token
        ensures BearerToken(req) == Some(token) <==> ReadsBearer(req, token)
      {
        BearerTokenMeaning(req, token);
      }
      answer, asked := Identified(None), [];
      var bearer := BearerToken(req);
      match authenticator {
        case ClientCertificate(prefix) =>
          answer := Identified(CertificateUser(req, prefix));
        case OidcToken =>
          if bearer.Some? {
            var outcome, _, _ := oidc.AuthenticateToken(bearer.value);
            answer := OutcomeAnswer(outcome);
            asked := [Exchange(OidcQuestion(bearer.value), answer)];
          }
        case KubernetesToken =>
          if bearer.Some? {
            var result, _ := client.AuthenticateToken(bearer.value);
            answer := TokenAnswer(result);
            asked := [Exchange(TokenQuestion(bearer.value), answer)];
          }
      }
    }

    /** Tries the authenticators in order, up to the first identity or the first failure. */
    method RunChain(req: Request) returns (who: Answer, ghost transcript: seq<Exchange>)
      requires Valid()
      modifies world, client, oidc
      ensures Valid() && world.exchanges == old(world.exchanges) + transcript
      ensures Play(TheSettings(), req, Authenticate(TheSettings(), req, chain), transcript)
           == Some(AfterChain(TheSettings(), req, who, []))
    {
      ghost var st := TheSettings();
      hide Authenticate, Play, Consulted, BeginAuthorization, RecordsOf, Authorize, BearerToken, CertificateUser;
      transcript := [];
      PlayNothing(st, req, chain);
      for i := 0 to |chain|
        invariant Valid() && world.exchanges == old(world.exchanges) + transcript
        invariant Play(st, req, Authenticate(st, req, chain), transcript) == Some(Authenticate(st, req, chain[i..]))
      {
        var answer;
        ghost var asked;
        answer, asked := Consult(req, chain[i]);
        ConsultedAdvances(st, req, chain[i..], answer, asked);
        PlayAppend(st, req, Authenticate(st, req, chain), transcript, asked);
        assert chain[i..][1..] == chain[i + 1..];
        Concatenation(old(world.exchanges), transcript, asked);
        transcript := transcript + asked;
        if answer != Identified(None) {
          return answer, transcript;
        }
      }
      who := Identified(None);
    }

    /** Every record must pass, by a static rule or by review; stops at the first that does not. */
    method AuthorizeAll(req: Request, user: Identity, records: seq<Attributes>)
      returns (outcome: Pipeline.Outcome, ghost transcript: seq<Exchange>)
      requires Valid()
      modifies world, client
      ensures Valid() && world.exchanges == old(world.exchanges) + transcript
      ensures outcome.Forward? ==> outcome.identity == Some(user)
      ensures Play(TheSettings(), req, Authorize(TheSettings(), user, records), transcript) == Some(Done(outcome))
    {
      ghost var st := TheSettings();
      hide StaticAllows, RecordsOf;
      transcript := [];
      assert records[0..] == records;
      for i := 0 to |records|
        invariant Valid() && world.exchanges == old(world.exchanges) + transcript
        invariant Play(st, req, Authorize(st, user, records), transcript) == Some(Authorize(st, user, records[i..]))
      {
        assert records[i..][0] == records[i] && records[i..][1..] == records[i + 1..];
        if !StaticAllows(config.staticRules, records[i]) {
          if client == null {
            return Respond(403), transcript;
          }
          var result, _ := client.Authorize(records[i]);
          ghost var x := Exchange(AccessQuestion(records[i]), AccessAnswer(result));
          PlayOne(st, req, Authorize(st, user, records), transcript, x);
          Concatenation(old(world.exchanges), transcript, [x]);
          transcript := transcript + [x];
          if result.Err? {
            return InternalError, transcript;
          }
          if !result.value {
            return Respond(403), transcript;
          }
        }
      }
      outcome := Forward(Some(user));
    }

    /**
      The request filter. Operational endpoints answer at once and are not counted; any
      other request is counted and goes through the stages, asking exactly the recorded
      questions. Only a fully authorized request leaves its identity in the context.
     */
    method RequestFilter(original: Request, certificate: Option<string>, ctx: RequestContext)
      returns (reaction: Reaction, ghost transcript: seq<Exchange>)
      requires Valid()
      modifies this`requestsTotal, ctx, world, client, oidc
      ensures Valid() && world.exchanges == old(world.exchanges) + transcript
      ensures
        if operationalEndpoints && original.path == "/healthz" then
          reaction == Healthy && requestsTotal == old(requestsTotal) && transcript == []
        else if operationalEndpoints && original.path == "/metrics" then
          reaction == Metrics(old(requestsTotal)) && requestsTotal == old(requestsTotal) && transcript == []
        else
          && requestsTotal == (old(requestsTotal) + 1) % COUNTER_SIZE
          && reaction.Filtered?
          && var req := WithCertificate(original, certificate);
             Play(TheSettings(), req, Start(TheSettings(), req), transcript) == Some(Done(reaction.outcome))
      ensures ctx.identity
           == match reaction case Filtered(Forward(Some(user))) => Some(user) case _ => old(ctx.identity)
    {
      transcript := [];
      var path := original.path;
      if operationalEndpoints && path == "/healthz" {
        return Healthy, transcript;
      }
      if operationalEndpoints && path == "/metrics" {
        return Metrics(requestsTotal), transcript;
      }
      requestsTotal := (requestsTotal + 1) % COUNTER_SIZE;
      var outcome: Pipeline.Outcome;
      outcome, transcript := Filter(WithCertificate(original, certificate));
      match outcome {
        case Forward(Some(user)) => ctx.identity := Some(user);
        case _ =>
      }
      reaction := Filtered(outcome);
    }

    /** The stages of one counted request, from the allow list to the last review. */
    method Filter(req: Request) returns (outcome: Pipeline.Outcome, ghost transcript: seq<Exchange>)
      requires Valid()
      modifies world, client, oidc
      ensures Valid() && world.exchanges == old(world.exchanges) + transcript
      ensures Play(TheSettings(), req, Start(TheSettings(), req), transcript) == Some(Done(outcome))
    {
      ghost var st := TheSettings();
      hide AnyMatches, Authenticate, Play;
      transcript := [];
      if allow != [] && !AnyMatches(allow, req.path) {
        PlayDone(st, req, Respond(404));
        return Respond(404), transcript;
      }
      if AnyMatches(ignore, req.path) {
        PlayDone(st, req, Forward(None));
        return Forward(None), transcript;
      }
      outcome, transcript := FilterAdmitted(req);
    }

    /** The stages of a request that needs a user. */
    method FilterAdmitted(req: Request) returns (outcome: Pipeline.Outcome, ghost transcript: seq<Exchange>)
      requires Valid()
      modifies world, client, oidc
      ensures Valid() && world.exchanges == old(world.exchanges) + transcript
      ensures Play(TheSettings(), req, Authenticate(TheSettings(), req, chain), transcript) == Some(Done(outcome))
    {
      var who;
      ghost var first;
      who, first := RunChain(req);
      PlayNothing(TheSettings(), req, chain);
      hide Authenticate, BeginAuthorization, Play;
      if who.Identified? && who.user.Some? {
        ghost var second;
        outcome, second := FilterFor(req, who.user.value);
        ChainThenRecords(TheSettings(), req, chain, who.user.value, first, second, outcome);
        Concatenation(old(world.exchanges), first, second);
        transcript := first + second;
      } else {
        outcome := if who.Identified? then Respond(401) else InternalError;
        transcript := first;
      }
    }

    /** The stages of a request whose user is known. */
    method FilterFor(req: Request, user: Identity) returns (outcome: Pipeline.Outcome, ghost transcript: seq<Exchange>)
      requires Valid()
      modifies world, client
      ensures Valid() && world.exchanges == old(world.exchanges) + transcript
      ensures Play(TheSettings(), req, BeginAuthorization(TheSettings(), req, user), transcript) == Some(Done(outcome))
    {
      ghost var st := TheSettings();
      hide RecordsOf, Play, Authorize;
      transcript := [];
      PlayDone(st, req, InternalError);
      PlayDone(st, req, Respond(403));
      var records := GenerateAttributes(config, req, user, platform);
      if records.Err? {
        return InternalError, transcript;
      }
      if records.value == [] {
        return Respond(403), transcript;
      }
      outcome, transcript := AuthorizeAll(req, user, records.value);
    }

    ghost function TheHeaders(): IdentityHeaders
    {
      IdentityHeaders(authHeaders, userHeader, groupsHeader, groupSeparator)
    }

    /** Writes the identity headers, when configured and when the context holds an identity. */
    method UpstreamRequestFilter(header: UpstreamHeader, ctx: RequestContext) returns (ok: bool)
      modifies header
      ensures ok <==> (Writes(TheHeaders(), ctx.identity) ==> HeadersHold(TheHeaders(), ctx.identity.value))
      ensures ok ==> forall name :: Fields(header.fields, name) == SeenUpstream(TheHeaders(), old(header.fields), ctx.identity, name)
    {
      hide ValidHeaderName, ValidHeaderValue, AsciiLower, Join, Fields;
      ok := true;
      if authHeaders {
        match ctx.identity {
          case Some(user) =>
            ok := header.Insert(userHeader, user.name);
            if ok {
              ok := header.Insert(groupsHeader, Join(user.groups, groupSeparator));
            }
          case None =>
        }
      }
    }

    /** The header sent upstream for a forwarded request, unless writing the identity fails. */
    method UpstreamFields(req: Request, ctx: RequestContext) returns (sent: Option<seq<Header>>)
      ensures sent.Some? <==> (Writes(TheHeaders(), ctx.identity) ==> HeadersHold(TheHeaders(), ctx.identity.value))
      ensures sent.Some? ==>
                forall name :: Fields(sent.value, name) == SeenUpstream(TheHeaders(), req.headers, ctx.identity, name)
    {
      hide SeenUpstream, HeadersHold, Fields;
      var header := new UpstreamHeader(req.headers);
      var ok := UpstreamRequestFilter(header, ctx);
      sent := if ok then Some(header.fields) else None;
    }

    /**
      One request from a new context to the header sent upstream. It is sent exactly when the
      stages forwarded it and its identity, if written, fits into headers; the upstream sees
      the identity written and otherwise the request's own fields. A request forwarded for a
      user was cleared, record by record, by a static rule or by an exchange of this run.
     */
    method HandleRequest(req: Request, certificate: Option<string>)
      returns (reaction: Reaction, sent: Option<seq<Header>>, ghost transcript: seq<Exchange>)
      requires Valid()
      modifies this`requestsTotal, world, client, oidc
      ensures Valid() && world.exchanges == old(world.exchanges) + transcript
      ensures reaction.Filtered? ==>
                var request := WithCertificate(req, certificate);
                Play(TheSettings(), request, Start(TheSettings(), request), transcript) == Some(Done(reaction.outcome))
      ensures sent.Some? <==>
                && reaction.Filtered? && reaction.outcome.Forward?
                && (Writes(TheHeaders(), reaction.outcome.identity) ==> HeadersHold(TheHeaders(), reaction.outcome.identity.value))
      ensures sent.Some? ==>
                forall name :: Fields(sent.value, name) == SeenUpstream(TheHeaders(), req.headers, reaction.outcome.identity, name)
      ensures match reaction
              case Filtered(Forward(None)) => Admitted(TheSettings(), req) && AnyMatches(ignore, req.path) && transcript == []
              case Filtered(Forward(Some(user))) =>
                && Admitted(TheSettings(), req) && !AnyMatches(ignore, req.path)
                && ForwardedWithCause(TheSettings(), WithCertificate(req, certificate), transcript, user)
              case _ => true
    {
      var ctx := new RequestContext();
      reaction, transcript := RequestFilter(req, certificate, ctx);
      sent := None;
      hide Play, Start, ForwardedWithCause, AnyMatches, SeenUpstream, HeadersHold, RecordsOf, Fields, Writes, KubernetesClient.Valid;
      if reaction.Filtered? && reaction.outcome.Forward? {
        TranscriptForwards(TheSettings(), WithCertificate(req, certificate), transcript, reaction.outcome.identity);
        sent := UpstreamFields(req, ctx);
      }
    }
  }
}
