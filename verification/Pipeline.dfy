/**
  The request pipeline as a machine of stages. A stage is either finished or waits for the
  answer to one question; everything between two questions is computed at once. The filter
  itself (module Proxy) and the concurrent system (module EndToEnd) both follow it, and
  here it is shown to reach the decision that a direct reading of the rules gives.
 */
module Pipeline {
  import opened Wrappers
  import opened Text
  import opened Config
  import opened Templates
  import opened Authorization
  import opened PathFilter
  import opened Environment

  datatype Authenticator = ClientCertificate(prefix: string) | OidcToken | KubernetesToken

  datatype Settings = Settings(
    config: AuthorizationConfig, allow: seq<string>, ignore: seq<string>,
    chain: seq<Authenticator>, hasReviewer: bool, platform: Platform)

  ghost predicate ValidSettings(st: Settings)
  {
    IsHashOrder(st.platform.order)
  }

  datatype Outcome = Respond(status: nat) | Forward(identity: Option<Identity>) | InternalError

  datatype Stage =
    | AskingUser(question: Question, rest: seq<Authenticator>)
    | AskingAccess(user: Identity, todo: seq<Attributes>)
    | Done(outcome: Outcome)

  /** The internal header that carries the identity of a verified client certificate. */
  function CertificateHeader(): string
  {
    "x-pingora-client-cert-identity"
  }

  /** The request the authenticators see: the certificate identity replaces any such header. */
  function WithCertificate(req: Request, certificate: Option<string>): Request
  {
    match certificate
    case None => req
    case Some(name) =>
      req.(headers := Without(req.headers, CertificateHeader()) + [Header(CertificateHeader(), HeaderText(name))])
  }

  predicate IsVisibleAscii(c: char)
  {
    c == '\t' || ' ' <= c <= '~'
  }

  /** How a header value reads: as text only when it is visible ASCII. */
  function HeaderText(value: string): Option<string>
  {
    if forall i | 0 <= i < |value| :: IsVisibleAscii(value[i]) then Some(value) else None
  }

  function Without(headers: seq<Header>, name: string): seq<Header>
  {
    if headers == [] then []
    else (if headers[0].name == name then [] else [headers[0]]) + Without(headers[1..], name)
  }

  function CertificateUser(req: Request, prefix: string): Option<Identity>
  {
    var name := FirstHeader(req.headers, CertificateHeader());
    if name == "" then None else Some(Identity(prefix + name, []))
  }

  function BearerToken(req: Request): Option<string>
  {
    var value := FirstHeader(req.headers, "authorization");
    if StartsWith(value, "Bearer ") then Some(value[7..])
    else if StartsWith(value, "bearer ") then Some(value[7..])
    else None
  }

  /** The text of the first `authorization` header is this token behind the scheme, in one of two spellings. */
  predicate ReadsBearer(req: Request, token: string)
  {
    var value := FirstHeader(req.headers, "authorization");
    value == "Bearer " + token || value == "bearer " + token
  }

  lemma BearerTokenMeaning(req: Request, token: string)
    ensures BearerToken(req) == Some(token) <==> ReadsBearer(req, token)
  {
    hide FirstHeader;
    var value := FirstHeader(req.headers, "authorization");
    if StartsWith(value, "Bearer ") || StartsWith(value, "bearer ") {
      assert value == value[..7] + value[7..];
    }
    assert ("Bearer " + token)[7..] == token && ("bearer " + token)[7..] == token;
  }

  /** The user of the certificate authenticator is what its internal header names. */
  lemma CertificateUserMeaning(req: Request, prefix: string, user: Identity)
    ensures CertificateUser(req, prefix) == Some(user) <==>
              && FirstHeader(req.headers, "x-pingora-client-cert-identity") != ""
              && user.name == prefix + FirstHeader(req.headers, "x-pingora-client-cert-identity") && user.groups == []
  {
    hide FirstHeader;
  }

  /** Header text is made of tabs and the characters from space to tilde. */
  lemma HeaderTextMeaning(value: string, text: string)
    ensures HeaderText(value) == Some(text) <==>
              text == value && forall i | 0 <= i < |value| :: value[i] as int == 9 || 32 <= value[i] as int <= 126
  {
  }

  // ---------------------------------------------------------------- the stage machine

  /** Moves on through records that a static rule allows, up to one that needs a review. */
  function Authorize(st: Settings, user: Identity, todo: seq<Attributes>): (s: Stage)
    ensures s.AskingAccess? ==> s.todo != [] && |s.todo| <= |todo| && st.hasReviewer
    ensures !s.AskingUser?
  {
    if todo == [] then Done(Forward(Some(user)))
    else if StaticAllows(st.config.staticRules, todo[0]) then Authorize(st, user, todo[1..])
    else if st.hasReviewer then AskingAccess(user, todo)
    else Done(Respond(403))
  }

  function BeginAuthorization(st: Settings, req: Request, user: Identity): (s: Stage)
    requires ValidSettings(st)
    ensures s.AskingAccess? ==> s.todo != [] && st.hasReviewer
    ensures !s.AskingUser?
  {
    match RecordsOf(st.config, req, user, st.platform)
    case Err(_) => Done(InternalError)
    case Ok(records) => if records == [] then Done(Respond(403)) else Authorize(st, user, records)
  }

  /** Moves on through the chain, up to an authenticator that needs an answer. */
  function Authenticate(st: Settings, req: Request, chain: seq<Authenticator>): (s: Stage)
    requires ValidSettings(st)
    ensures s.AskingUser? ==> |s.rest| < |chain| && !s.question.AccessQuestion?
    ensures s.AskingAccess? ==> s.todo != [] && st.hasReviewer
  {
    if chain == [] then Done(Respond(401))
    else
      match chain[0]
      case ClientCertificate(prefix) =>
        (match CertificateUser(req, prefix)
         case Some(user) => BeginAuthorization(st, req, user)
         case None => Authenticate(st, req, chain[1..]))
      case OidcToken =>
        (match BearerToken(req)
         case Some(token) => AskingUser(OidcQuestion(token), chain[1..])
         case None => Authenticate(st, req, chain[1..]))
      case KubernetesToken =>
        (match BearerToken(req)
         case Some(token) => AskingUser(TokenQuestion(token), chain[1..])
         case None => Authenticate(st, req, chain[1..]))
  }

  /** Where a request that is not an operational one starts. */
  function Start(st: Settings, req: Request): (s: Stage)
    requires ValidSettings(st)
    ensures SoundStage(st, s)
  {
    if st.allow != [] && !AnyMatches(st.allow, req.path) then Done(Respond(404))
    else if AnyMatches(st.ignore, req.path) then Done(Forward(None))
    else Authenticate(st, req, st.chain)
  }

  predicate SoundStage(st: Settings, s: Stage)
  {
    && (s.AskingUser? ==> !s.question.AccessQuestion?)
    && (s.AskingAccess? ==> s.todo != [] && st.hasReviewer)
  }

  function Need(s: Stage): Option<Question>
  {
    match s
    case AskingUser(q, _) => Some(q)
    case AskingAccess(_, todo) => if todo == [] then None else Some(AccessQuestion(todo[0]))
    case Done(_) => None
  }

  /** A measure of how far a stage is from done: first its tier, then what is left in it. */
  function Tier(s: Stage): nat
  {
    match s case AskingUser(_, _) => 2 case AskingAccess(_, _) => 1 case Done(_) => 0
  }

  function Left(s: Stage): nat
  {
    match s case AskingUser(_, rest) => |rest| case AskingAccess(_, todo) => |todo| case Done(_) => 0
  }

  /** Where the answer to its question takes a stage; any failure ends the request. */
  function Resume(st: Settings, req: Request, s: Stage, answer: Answer): (next: Stage)
    requires ValidSettings(st) && SoundStage(st, s) && Need(s).Some?
    ensures SoundStage(st, next)
    ensures Tier(next) < Tier(s) || (Tier(next) == Tier(s) && Left(next) < Left(s))
  {
    match s
    case AskingUser(_, rest) =>
      (match answer
       case Identified(Some(user)) => BeginAuthorization(st, req, user)
       case Identified(None) => Authenticate(st, req, rest)
       case _ => Done(InternalError))
    case AskingAccess(user, todo) =>
      (match answer
       case Decided(allowed) => if allowed then Authorize(st, user, todo[1..]) else Done(Respond(403))
       case _ => Done(InternalError))
  }

  /** Plays a transcript: each exchange must answer the question the stage then asks. */
  function Play(st: Settings, req: Request, s: Stage, transcript: seq<Exchange>): (r: Option<Stage>)
    requires ValidSettings(st) && SoundStage(st, s)
    ensures r.Some? ==> SoundStage(st, r.value)
    decreases |transcript|
  {
    if transcript == [] then Some(s)
    else if Need(s) == Some(transcript[0].question) then
      Play(st, req, Resume(st, req, s, transcript[0].answer), transcript[1..])
    else None
  }

  lemma {:induction false} PlayAppend(st: Settings, req: Request, s: Stage, a: seq<Exchange>, b: seq<Exchange>)
    requires ValidSettings(st) && SoundStage(st, s)
    ensures Play(st, req, s, a + b)
         == match Play(st, req, s, a) case None => None case Some(mid) => Play(st, req, mid, b)
    decreases |a|
  {
    hide Resume;
    if a == [] {
      assert a + b == b;
    } else {
      assert (a + b)[1..] == a[1..] + b;
      if Need(s) == Some(a[0].question) {
        PlayAppend(st, req, Resume(st, req, s, a[0].answer), a[1..], b);
      }
    }
  }

  lemma PlayOne(st: Settings, req: Request, s: Stage, transcript: seq<Exchange>, x: Exchange)
    requires ValidSettings(st) && SoundStage(st, s)
    requires Play(st, req, s, transcript).Some?
    requires Need(Play(st, req, s, transcript).value) == Some(x.question)
    ensures Play(st, req, s, transcript + [x])
         == Some(Resume(st, req, Play(st, req, s, transcript).value, x.answer))
  {
    var mid := Play(st, req, s, transcript).value;
    PlayAppend(st, req, s, transcript, [x]);
    assert [x][1..] == [];
    assert Play(st, req, Resume(st, req, mid, x.answer), [x][1..]) == Some(Resume(st, req, mid, x.answer));
  }

  // ---------------------------------------------------------------- the direct decision

  /** Someone who answers every question, always in the same way. */
  type Oracle = Question -> Answer

  /** The first authenticator of the chain that identifies the request, or its failure. */
  function WhoIs(req: Request, chain: seq<Authenticator>, oracle: Oracle): Answer
  {
    if chain == [] then Identified(None)
    else
      var answer :=
        match chain[0]
        case ClientCertificate(prefix) => Identified(CertificateUser(req, prefix))
        case OidcToken => (match BearerToken(req) case Some(t) => oracle(OidcQuestion(t)) case None => Identified(None))
        case KubernetesToken => (match BearerToken(req) case Some(t) => oracle(TokenQuestion(t)) case None => Identified(None));
      if answer == Identified(None) then WhoIs(req, chain[1..], oracle) else answer
  }

  /** A record passes by a static rule, or else by the reviewer's word. */
  predicate Passes(st: Settings, oracle: Oracle, a: Attributes)
  {
    StaticAllows(st.config.staticRules, a) || (st.hasReviewer && oracle(AccessQuestion(a)) == Decided(true))
  }

  /** The status owed to the first record that does not pass. */
  function Refusal(st: Settings, oracle: Oracle, a: Attributes): Outcome
  {
    if !st.hasReviewer || oracle(AccessQuestion(a)) == Decided(false) then Respond(403) else InternalError
  }

  function Verdict(st: Settings, oracle: Oracle, user: Identity, records: seq<Attributes>): Outcome
  {
    if records == [] then Forward(Some(user))
    else if Passes(st, oracle, records[0]) then Verdict(st, oracle, user, records[1..])
    else Refusal(st, oracle, records[0])
  }

  /** The decision of a filter that asks the oracle directly. */
  function Decide(st: Settings, req: Request, oracle: Oracle): Outcome
    requires ValidSettings(st)
  {
    if st.allow != [] && !AnyMatches(st.allow, req.path) then Respond(404)
    else if AnyMatches(st.ignore, req.path) then Forward(None)
    else DecideOn(st, req, oracle, WhoIs(req, st.chain, oracle))
  }

  function DecideFor(st: Settings, req: Request, oracle: Oracle, user: Identity): Outcome
    requires ValidSettings(st)
  {
    match RecordsOf(st.config, req, user, st.platform)
    case Err(_) => InternalError
    case Ok(records) => if records == [] then Respond(403) else Verdict(st, oracle, user, records)
  }

  /** Where the machine ends up from a stage when the oracle answers. */
  function Conclude(st: Settings, req: Request, s: Stage, oracle: Oracle): Outcome
    requires ValidSettings(st) && SoundStage(st, s)
    decreases Tier(s), Left(s)
  {
    match Need(s)
    case Some(q) => Conclude(st, req, Resume(st, req, s, oracle(q)), oracle)
    case None => s.outcome
  }

  /** The questions the machine asks from a stage on, when the oracle answers. */
  function Asked(st: Settings, req: Request, s: Stage, oracle: Oracle): seq<Question>
    requires ValidSettings(st) && SoundStage(st, s)
    decreases Tier(s), Left(s)
  {
    match Need(s)
    case Some(q) => [q] + Asked(st, req, Resume(st, req, s, oracle(q)), oracle)
    case None => []
  }

  lemma {:induction false} ConcludeAuthorize(st: Settings, req: Request, user: Identity, todo: seq<Attributes>, oracle: Oracle)
    requires ValidSettings(st)
    ensures Conclude(st, req, Authorize(st, user, todo), oracle) == Verdict(st, oracle, user, todo)
    decreases |todo|
  {
    hide StaticAllows;
    if todo != [] {
      ConcludeAuthorize(st, req, user, todo[1..], oracle);
    }
  }

  lemma ConcludeBegin(st: Settings, req: Request, user: Identity, oracle: Oracle)
    requires ValidSettings(st)
    ensures Conclude(st, req, BeginAuthorization(st, req, user), oracle) == DecideFor(st, req, oracle, user)
  {
    hide RecordsOf;
    match RecordsOf(st.config, req, user, st.platform)
    case Err(_) =>
    case Ok(records) => ConcludeAuthorize(st, req, user, records, oracle);
  }

  function DecideOn(st: Settings, req: Request, oracle: Oracle, who: Answer): Outcome
    requires ValidSettings(st)
  {
    match who
    case Identified(Some(user)) => DecideFor(st, req, oracle, user)
    case Identified(None) => Respond(401)
    case _ => InternalError
  }

  lemma ConcludeAsking(st: Settings, req: Request, q: Question, rest: seq<Authenticator>, oracle: Oracle)
    requires ValidSettings(st) && !q.AccessQuestion?
    requires Conclude(st, req, Authenticate(st, req, rest), oracle) == DecideOn(st, req, oracle, WhoIs(req, rest, oracle))
    ensures Conclude(st, req, AskingUser(q, rest), oracle)
         == DecideOn(st, req, oracle, if oracle(q) == Identified(None) then WhoIs(req, rest, oracle) else oracle(q))
  {
    hide WhoIs, DecideFor, BeginAuthorization, Authenticate;
    var s := AskingUser(q, rest);
    assert Need(s) == Some(q);
    assert Conclude(st, req, s, oracle) == Conclude(st, req, Resume(st, req, s, oracle(q)), oracle);
    match oracle(q)
    case Identified(Some(user)) => ConcludeBegin(st, req, user, oracle);
    case Identified(None) =>
    case _ =>
  }

  lemma {:induction false} ConcludeAuthenticate(st: Settings, req: Request, chain: seq<Authenticator>, oracle: Oracle)
    requires ValidSettings(st)
    ensures Conclude(st, req, Authenticate(st, req, chain), oracle) == DecideOn(st, req, oracle, WhoIs(req, chain, oracle))
    decreases |chain|
  {
    hide BearerToken, CertificateUser, Conclude, DecideFor, BeginAuthorization;
    if chain == [] {
      ConcludeDone(st, req, Respond(401), oracle);
    } else {
      ConcludeAuthenticate(st, req, chain[1..], oracle);
      match chain[0]
      case ClientCertificate(prefix) =>
        if CertificateUser(req, prefix).Some? {
          ConcludeBegin(st, req, CertificateUser(req, prefix).value, oracle);
        }
      case OidcToken =>
        if BearerToken(req).Some? {
          ConcludeAsking(st, req, OidcQuestion(BearerToken(req).value), chain[1..], oracle);
        }
      case KubernetesToken =>
        if BearerToken(req).Some? {
          ConcludeAsking(st, req, TokenQuestion(BearerToken(req).value), chain[1..], oracle);
        }
    }
  }

  lemma ConcludeDone(st: Settings, req: Request, outcome: Outcome, oracle: Oracle)
    requires ValidSettings(st)
    ensures Conclude(st, req, Done(outcome), oracle) == outcome
  {
  }

  /** The stage machine reaches the direct decision. */
  lemma MachineDecides(st: Settings, req: Request, oracle: Oracle)
    requires ValidSettings(st)
    ensures Conclude(st, req, Start(st, req), oracle) == Decide(st, req, oracle)
  {
    ConcludeAuthenticate(st, req, st.chain, oracle);
  }

  ghost predicate AnsweredBy(transcript: seq<Exchange>, oracle: Oracle)
  {
    forall i | 0 <= i < |transcript| :: transcript[i].answer == oracle(transcript[i].question)
  }

  /** Any transcript answered by the oracle is the machine's own, as far as it goes. */
  lemma {:induction false} PlayConcludes(st: Settings, req: Request, s: Stage, transcript: seq<Exchange>, oracle: Oracle)
    requires ValidSettings(st) && SoundStage(st, s)
    requires AnsweredBy(transcript, oracle) && Play(st, req, s, transcript).Some?
    ensures Conclude(st, req, Play(st, req, s, transcript).value, oracle) == Conclude(st, req, s, oracle)
    decreases |transcript|
  {
    hide Resume;
    if transcript != [] {
      PlayConcludes(st, req, Resume(st, req, s, transcript[0].answer), transcript[1..], oracle);
    }
  }

  /** A finished transcript whose answers are the oracle's carries the direct decision. */
  lemma TranscriptDecides(st: Settings, req: Request, transcript: seq<Exchange>, outcome: Outcome, oracle: Oracle)
    requires ValidSettings(st)
    requires Play(st, req, Start(st, req), transcript) == Some(Done(outcome)) && AnsweredBy(transcript, oracle)
    ensures outcome == Decide(st, req, oracle)
  {
    PlayConcludes(st, req, Start(st, req), transcript, oracle);
    MachineDecides(st, req, oracle);
  }

  // ---------------------------------------------------------------- what a transcript proves

  /** A static rule allows the record, or the transcript holds the reviewer's word that it is allowed. */
  predicate Cleared(st: Settings, transcript: seq<Exchange>, a: Attributes)
  {
    StaticAllows(st.config.staticRules, a) || Exchange(AccessQuestion(a), Decided(true)) in transcript
  }

  /** The user comes from a certificate authenticator of the chain, or from an answer in the transcript. */
  ghost predicate Vouched(st: Settings, req: Request, transcript: seq<Exchange>, user: Identity)
  {
    || (exists prefix :: ClientCertificate(prefix) in st.chain && CertificateUser(req, prefix) == Some(user))
    || (exists x :: x in transcript && !x.question.AccessQuestion? && x.answer == Identified(Some(user)))
  }

  /** All a transcript must show for a request to be forwarded as that user. */
  ghost predicate ForwardedWithCause(st: Settings, req: Request, transcript: seq<Exchange>, user: Identity)
    requires ValidSettings(st)
  {
    && Vouched(st, req, transcript, user)
    && var records := RecordsOf(st.config, req, user, st.platform);
       && records.Ok? && records.value != []
       && forall i | 0 <= i < |records.value| :: Cleared(st, transcript, records.value[i])
  }

  lemma {:induction false} AuthorizedWithCause(st: Settings, req: Request, user: Identity, todo: seq<Attributes>,
                                               transcript: seq<Exchange>, identity: Option<Identity>)
    requires ValidSettings(st)
    requires Play(st, req, Authorize(st, user, todo), transcript) == Some(Done(Forward(identity)))
    ensures identity == Some(user) && forall i | 0 <= i < |todo| :: Cleared(st, transcript, todo[i])
    decreases |todo|
  {
    hide StaticAllows, RecordsOf, Authenticate, BeginAuthorization;
    if todo != [] {
      assert forall i | 0 < i < |todo| :: todo[i] == todo[1..][i - 1];
      if StaticAllows(st.config.staticRules, todo[0]) {
        AuthorizedWithCause(st, req, user, todo[1..], transcript, identity);
      } else {
        AuthorizedWithCause(st, req, user, todo[1..], transcript[1..], identity);
      }
    }
  }

  lemma {:induction false} BegunWithCause(st: Settings, req: Request, user: Identity, transcript: seq<Exchange>, identity: Option<Identity>)
    requires ValidSettings(st)
    requires Play(st, req, BeginAuthorization(st, req, user), transcript) == Some(Done(Forward(identity)))
    ensures
      var records := RecordsOf(st.config, req, user, st.platform);
      && identity == Some(user) && records.Ok? && records.value != []
      && forall i | 0 <= i < |records.value| :: Cleared(st, transcript, records.value[i])
  {
    hide StaticAllows, RecordsOf, Authenticate;
    AuthorizedWithCause(st, req, user, RecordsOf(st.config, req, user, st.platform).value, transcript, identity);
  }

  lemma WiderTranscript(st: Settings, req: Request, transcript: seq<Exchange>, user: Identity)
    requires ValidSettings(st) && transcript != [] && ForwardedWithCause(st, req, transcript[1..], user)
    ensures ForwardedWithCause(st, req, transcript, user)
  {
    hide StaticAllows, RecordsOf, CertificateUser;
    var records := RecordsOf(st.config, req, user, st.platform).value;
    forall i | 0 <= i < |records|
      ensures Cleared(st, transcript, records[i])
    {
      assert Cleared(st, transcript[1..], records[i]);
    }
  }

  lemma AskedWithCause(st: Settings, req: Request, q: Question, rest: seq<Authenticator>, transcript: seq<Exchange>,
                       identity: Option<Identity>)
    requires ValidSettings(st) && !q.AccessQuestion?
    requires Play(st, req, AskingUser(q, rest), transcript) == Some(Done(Forward(identity)))
    requires transcript != [] && Play(st, req, Authenticate(st, req, rest), transcript[1..]) == Some(Done(Forward(identity))) ==>
               identity.Some? && ForwardedWithCause(st, req, transcript[1..], identity.value)
    ensures identity.Some? && ForwardedWithCause(st, req, transcript, identity.value)
  {
    hide RecordsOf, Authenticate, BeginAuthorization, ForwardedWithCause, Cleared;
    var x := transcript[0];
    assert x.question == q;
    match x.answer
    case Identified(Some(user)) =>
      BegunWithCause(st, req, user, transcript[1..], identity);
      UserAnswered(st, req, transcript, user);
    case Identified(None) =>
      WiderTranscript(st, req, transcript, identity.value);
    case _ =>
  }

  lemma UserAnswered(st: Settings, req: Request, transcript: seq<Exchange>, user: Identity)
    requires ValidSettings(st)
    requires transcript != [] && !transcript[0].question.AccessQuestion? && transcript[0].answer == Identified(Some(user))
    requires
      var records := RecordsOf(st.config, req, user, st.platform);
      && records.Ok? && records.value != []
      && forall i | 0 <= i < |records.value| :: Cleared(st, transcript[1..], records.value[i])
    ensures ForwardedWithCause(st, req, transcript, user)
  {
    hide StaticAllows, RecordsOf, CertificateUser;
    assert transcript[0] in transcript;
    var records := RecordsOf(st.config, req, user, st.platform).value;
    forall i | 0 <= i < |records|
      ensures Cleared(st, transcript, records[i])
    {
      assert Cleared(st, transcript[1..], records[i]);
    }
  }

  lemma {:induction false} AuthenticatedWithCause(st: Settings, req: Request, chain: seq<Authenticator>, transcript: seq<Exchange>,
                                                  identity: Option<Identity>)
    requires ValidSettings(st) && forall i | 0 <= i < |chain| :: chain[i] in st.chain
    requires Play(st, req, Authenticate(st, req, chain), transcript) == Some(Done(Forward(identity)))
    ensures identity.Some? && ForwardedWithCause(st, req, transcript, identity.value)
    decreases |chain|
  {
    hide RecordsOf, BeginAuthorization, Cleared, BearerToken, CertificateUser;
    var rest := chain[1..];
    if transcript != [] && Play(st, req, Authenticate(st, req, rest), transcript[1..]) == Some(Done(Forward(identity))) {
      AuthenticatedWithCause(st, req, rest, transcript[1..], identity);
    }
    match chain[0]
    case ClientCertificate(prefix) =>
      if CertificateUser(req, prefix).Some? {
        BegunWithCause(st, req, CertificateUser(req, prefix).value, transcript, identity);
      } else {
        AuthenticatedWithCause(st, req, rest, transcript, identity);
      }
    case OidcToken =>
      if BearerToken(req).Some? {
        AskedWithCause(st, req, OidcQuestion(BearerToken(req).value), rest, transcript, identity);
      } else {
        AuthenticatedWithCause(st, req, rest, transcript, identity);
      }
    case KubernetesToken =>
      if BearerToken(req).Some? {
        AskedWithCause(st, req, TokenQuestion(BearerToken(req).value), rest, transcript, identity);
      } else {
        AuthenticatedWithCause(st, req, rest, transcript, identity);
      }
  }

  /**
    Whatever the reviewer answered, and whether or not it would answer so again: a request
    was forwarded only if its path is admitted, and either it is ignored and nothing was
    asked, or its transcript vouches for the user and clears every record.
   */
  lemma TranscriptForwards(st: Settings, req: Request, transcript: seq<Exchange>, identity: Option<Identity>)
    requires ValidSettings(st)
    requires Play(st, req, Start(st, req), transcript) == Some(Done(Forward(identity)))
    ensures Admitted(st, req)
    ensures if AnyMatches(st.ignore, req.path) then identity == None && transcript == []
            else identity.Some? && ForwardedWithCause(st, req, transcript, identity.value)
  {
    hide AnyMatches, ForwardedWithCause, Authenticate;
    if Admitted(st, req) && !AnyMatches(st.ignore, req.path) {
      AuthenticatedWithCause(st, req, st.chain, transcript, identity);
    }
  }

  // ---------------------------------------------------------------- what the decision means

  /** The first record that does not pass, or the number of records. */
  lemma {:induction false} FirstObstacle(st: Settings, oracle: Oracle, user: Identity, records: seq<Attributes>) returns (i: nat)
    ensures i <= |records| && forall j | 0 <= j < i :: Passes(st, oracle, records[j])
    ensures i < |records| ==> !Passes(st, oracle, records[i]) && Verdict(st, oracle, user, records) == Refusal(st, oracle, records[i])
    ensures i == |records| ==> Verdict(st, oracle, user, records) == Forward(Some(user))
  {
    hide Passes, Refusal;
    if records == [] || !Passes(st, oracle, records[0]) {
      i := 0;
    } else {
      var k := FirstObstacle(st, oracle, user, records[1..]);
      i := k + 1;
      assert forall j | 0 < j < |records| :: records[j] == records[1..][j - 1];
    }
  }

  lemma {:induction false} VerdictMeaning(st: Settings, oracle: Oracle, user: Identity, records: seq<Attributes>)
    ensures Verdict(st, oracle, user, records) == Forward(Some(user)) <==> forall i | 0 <= i < |records| :: Passes(st, oracle, records[i])
    ensures Verdict(st, oracle, user, records) != Forward(Some(user)) ==>
              exists i | 0 <= i < |records| ::
                && !Passes(st, oracle, records[i]) && (forall j | 0 <= j < i :: Passes(st, oracle, records[j]))
                && Verdict(st, oracle, user, records) == Refusal(st, oracle, records[i])
  {
    var i := FirstObstacle(st, oracle, user, records);
    hide Passes, Verdict;
  }

  predicate Admitted(st: Settings, req: Request)
  {
    st.allow == [] || AnyMatches(st.allow, req.path)
  }

  /**
    A request is forwarded if and only if it passes the allow list and is either ignored,
    or authenticated with a non-empty record list in which every record passes.
   */
  lemma ForwardedMeaning(st: Settings, req: Request, oracle: Oracle, identity: Option<Identity>)
    requires ValidSettings(st)
    ensures Decide(st, req, oracle) == Forward(identity) <==>
              && Admitted(st, req)
              && if AnyMatches(st.ignore, req.path) then identity == None
                 else
                   && identity.Some? && WhoIs(req, st.chain, oracle) == Identified(identity)
                   && var records := RecordsOf(st.config, req, identity.value, st.platform);
                      && records.Ok? && records.value != []
                      && forall i | 0 <= i < |records.value| :: Passes(st, oracle, records.value[i])
  {
    hide PathMatches, WhoIs, RecordsOf, Passes;
    match WhoIs(req, st.chain, oracle)
    case Identified(Some(user)) =>
      var records := RecordsOf(st.config, req, user, st.platform);
      if records.Ok? {
        VerdictMeaning(st, oracle, user, records.value);
      }
    case _ =>
  }

  /** Every forwarded request has a user exactly when no admitted path is ignored. */
  lemma ForwardsAreIdentifiedIffNothingIgnored(st: Settings)
    requires ValidSettings(st)
    ensures (forall req, oracle, identity | Decide(st, req, oracle) == Forward(identity) :: identity.Some?)
            <==> forall req | Admitted(st, req) :: !AnyMatches(st.ignore, req.path)
  {
    hide AnyMatches, WhoIs, DecideOn, Passes, RecordsOf;
    forall req, oracle, identity | Decide(st, req, oracle) == Forward(identity)
      ensures Admitted(st, req) && (identity.None? <==> AnyMatches(st.ignore, req.path))
    {
      ForwardedMeaning(st, req, oracle, identity);
    }
    forall req | Admitted(st, req) && AnyMatches(st.ignore, req.path)
      ensures exists oracle: Oracle :: Decide(st, req, oracle) == Forward(None)
    {
      var oracle: Oracle := q => Failed;
      assert Decide(st, req, oracle) == Forward(None);
    }
  }

  /**
    Why a request is not forwarded: 404 for a path off the allow list, 401 for no user,
    403 for no records or a first failing record that is denied, else an internal error.
   */
  lemma RefusedMeaning(st: Settings, req: Request, oracle: Oracle)
    requires ValidSettings(st)
    ensures Decide(st, req, oracle) == Respond(404) <==> !Admitted(st, req)
    ensures Decide(st, req, oracle) == Respond(401) <==>
              Admitted(st, req) && !AnyMatches(st.ignore, req.path) && WhoIs(req, st.chain, oracle) == Identified(None)
    ensures Decide(st, req, oracle) == Respond(403) <==>
              && Admitted(st, req) && !AnyMatches(st.ignore, req.path)
              && var who := WhoIs(req, st.chain, oracle);
                 && who.Identified? && who.user.Some?
                 && var records := RecordsOf(st.config, req, who.user.value, st.platform);
                    && records.Ok?
                    && (records.value == [] || exists i | 0 <= i < |records.value| ::
                          && (forall j | 0 <= j < i :: Passes(st, oracle, records.value[j]))
                          && !Passes(st, oracle, records.value[i])
                          && (!st.hasReviewer || oracle(AccessQuestion(records.value[i])) == Decided(false)))
    ensures Decide(st, req, oracle).Respond? ==> Decide(st, req, oracle).status in {401, 403, 404}
  {
    hide PathMatches, WhoIs, RecordsOf;
    match WhoIs(req, st.chain, oracle)
    case Identified(Some(user)) =>
      var records := RecordsOf(st.config, req, user, st.platform);
      if records.Ok? {
        var i := FirstObstacle(st, oracle, user, records.value);
        hide Passes, Verdict;
      }
    case _ =>
  }

  lemma {:induction false} WithoutHeader(headers: seq<Header>, name: string, value: Option<string>)
    requires AsciiLower(name) == name
    ensures FirstHeader(Without(headers, name) + [Header(name, value)], name) == match value case Some(v) => v case None => ""
  {
    var last := [Header(name, value)];
    if headers == [] {
      assert Without(headers, name) + last == last;
    } else {
      WithoutHeader(headers[1..], name, value);
      var rest := Without(headers[1..], name) + last;
      if headers[0].name == name {
        assert Without(headers, name) + last == rest;
      } else {
        assert (Without(headers, name) + last)[1..] == rest;
      }
    }
  }

  /** The user a recorded certificate name stands for; one that is empty or no header text stands for nobody. */
  function OwnUser(certificate: Option<string>, prefix: string): Option<Identity>
  {
    match certificate
    case None => None
    case Some(name) => if name == "" || HeaderText(name).None? then None else Some(Identity(prefix + name, []))
  }

  /**
    Whose user the certificate authenticator reports: that of the recorded name, whatever
    headers came with the request; without a recorded name, that of the request's own header.
   */
  lemma CertificateDecidesUser(req: Request, certificate: Option<string>, prefix: string)
    ensures certificate.Some? ==> CertificateUser(WithCertificate(req, certificate), prefix) == OwnUser(certificate, prefix)
    ensures certificate.None? ==>
              var own := FirstHeader(req.headers, CertificateHeader());
              CertificateUser(WithCertificate(req, certificate), prefix) == if own == "" then None else Some(Identity(prefix + own, []))
  {
    assert AsciiLower(CertificateHeader()) == CertificateHeader();
    hide CertificateHeader;
    if certificate.Some? {
      WithoutHeader(req.headers, CertificateHeader(), HeaderText(certificate.value));
    }
  }

  /** The authenticator reports the certificate's own user for every request exactly when a name was recorded. */
  lemma CertificateDecidesUserIffRecorded(certificate: Option<string>, prefix: string)
    ensures (forall req :: CertificateUser(WithCertificate(req, certificate), prefix) == OwnUser(certificate, prefix))
            <==> certificate.Some?
  {
    forall req | certificate.Some?
      ensures CertificateUser(WithCertificate(req, certificate), prefix) == OwnUser(certificate, prefix)
    {
      CertificateDecidesUser(req, certificate, prefix);
    }
    if certificate.None? {
      var req := Request("GET", "/", [], [Header(CertificateHeader(), Some("someone"))]);
      assert AsciiLower(CertificateHeader()) == CertificateHeader();
      CertificateDecidesUser(req, certificate, prefix);
      assert CertificateUser(WithCertificate(req, certificate), prefix) != OwnUser(certificate, prefix);
    }
  }

  /** Without a recorded name there is no certificate user exactly when the request's own header is missing or empty. */
  lemma UnrecordedCertificateUser(req: Request, prefix: string)
    ensures CertificateUser(WithCertificate(req, None), prefix) == None <==> FirstHeader(req.headers, CertificateHeader()) == ""
  {
    CertificateDecidesUser(req, None, prefix);
  }

  /**
    What that means for the decision: where the chain starts with the certificate
    authenticator and no name was recorded, the text of that header is the user, and the
    request is forwarded as that user when the user's records pass.
   */
  lemma UnrecordedCertificateForwards(st: Settings, req: Request, prefix: string, oracle: Oracle, records: seq<Attributes>)
    requires ValidSettings(st) && st.chain != [] && st.chain[0] == ClientCertificate(prefix)
    requires Admitted(st, req) && !AnyMatches(st.ignore, req.path)
    requires FirstHeader(req.headers, CertificateHeader()) != ""
    requires
      var user := Identity(prefix + FirstHeader(req.headers, CertificateHeader()), []);
      RecordsOf(st.config, req, user, st.platform) == Ok(records) && records != []
    requires forall i | 0 <= i < |records| :: Passes(st, oracle, records[i])
    ensures
      var user := Identity(prefix + FirstHeader(req.headers, CertificateHeader()), []);
      Decide(st, WithCertificate(req, None), oracle) == Forward(Some(user))
  {
    hide RecordsOf, Passes, AnyMatches, FirstHeader, CertificateHeader;
    var user := Identity(prefix + FirstHeader(req.headers, CertificateHeader()), []);
    VerdictMeaning(st, oracle, user, records);
    hide Verdict;
    assert WhoIs(req, st.chain, oracle) == Identified(Some(user));
  }

  /** The records for which a review is needed, in order. */
  function NeedReview(st: Settings, records: seq<Attributes>): seq<Question>
  {
    if records == [] then []
    else (if StaticAllows(st.config.staticRules, records[0]) then [] else [AccessQuestion(records[0])]) + NeedReview(st, records[1..])
  }

  /**
    Reviews are asked, in order, only for records no static rule allows, and stop at the
    first answer that is not an allow.
   */
  lemma {:induction false} ReviewsInOrder(st: Settings, req: Request, user: Identity, records: seq<Attributes>, oracle: Oracle)
    requires ValidSettings(st)
    ensures
      var asked := Asked(st, req, Authorize(st, user, records), oracle);
      && asked <= NeedReview(st, records)
      && (forall i | 0 <= i < |asked| - 1 :: oracle(asked[i]) == Decided(true))
      && (st.hasReviewer ==> asked == NeedReview(st, records) || (asked != [] && oracle(asked[|asked| - 1]) != Decided(true)))
      && (!st.hasReviewer ==> asked == [])
    decreases |records|
  {
    hide StaticAllows, RecordsOf, Authenticate, BeginAuthorization;
    if records != [] {
      ReviewsInOrder(st, req, user, records[1..], oracle);
      if !StaticAllows(st.config.staticRules, records[0]) && st.hasReviewer {
        AskedFromRecord(st, req, user, records, oracle);
        hide Asked, Authorize;
        var q := AccessQuestion(records[0]);
        var rest := if oracle(q) == Decided(true) then Asked(st, req, Authorize(st, user, records[1..]), oracle) else [];
        assert NeedReview(st, records) == [q] + NeedReview(st, records[1..]);
        assert forall i | 0 < i < |[q] + rest| :: ([q] + rest)[i] == rest[i - 1];
        assert rest == NeedReview(st, records[1..]) ==> [q] + rest == NeedReview(st, records);
      }
    }
  }

  lemma AskedFromRecord(st: Settings, req: Request, user: Identity, records: seq<Attributes>, oracle: Oracle)
    requires ValidSettings(st) && records != [] && st.hasReviewer && !StaticAllows(st.config.staticRules, records[0])
    ensures
      var q := AccessQuestion(records[0]);
      Asked(st, req, Authorize(st, user, records), oracle)
        == [q] + if oracle(q) == Decided(true) then Asked(st, req, Authorize(st, user, records[1..]), oracle) else []
  {
    hide StaticAllows, RecordsOf, Authenticate, BeginAuthorization;
    var q := AccessQuestion(records[0]);
    var s := AskingAccess(user, records);
    assert Authorize(st, user, records) == s;
    var next := Resume(st, req, s, oracle(q));
    assert next.Done? ==> Asked(st, req, next, oracle) == [];
  }
}
