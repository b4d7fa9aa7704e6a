/**
  When the shared access cache changes decisions. Two records with one cache key that are
  posted differently are twins. For a reviewer that goes by what is posted, every completed
  request of every run gets the direct filter's decision exactly when the settings admit no
  twins; and a single request can hold a pair.
 */
module SharedKeys {
  import opened Wrappers
  import opened Authorization
  import opened ReviewApi
  import opened Environment
  import opened PathFilter
  import opened Pipeline
  import opened EndToEnd
  import ReviewCache

  /** What is posted for a record; nothing is for other questions. */
  function PostOf(q: Question): Option<ReviewRequest>
  {
    if q.AccessQuestion? then Some(AccessReviewOf(q.attributes)) else None
  }

  /** The reviews a request needs, in order, when `users` identifies its user. */
  function ToReview(st: Settings, req: Request, users: Oracle): seq<Question>
    requires ValidSettings(st)
  {
    if !st.hasReviewer || !Admitted(st, req) || AnyMatches(st.ignore, req.path) then []
    else
      match WhoIs(req, st.chain, users)
      case Identified(Some(user)) =>
        (match RecordsOf(st.config, req, user, st.platform)
         case Err(_) => []
         case Ok(records) => NeedReview(st, records))
      case _ => []
  }

  /**
    Record `i` of one request and record `j` of another share a key and are posted
    differently, and the other's post does not come up earlier in the first request, where a
    denial would keep record `i` from being asked about.
   */
  predicate Twins(xs: seq<Question>, i: nat, ys: seq<Question>, j: nat)
  {
    && i < |xs| && j < |ys| && KeyOf(xs[i]) == KeyOf(ys[j]) && PostOf(xs[i]) != PostOf(ys[j])
    && forall m | 0 <= m < i :: PostOf(xs[m]) != PostOf(ys[j])
  }

  /** Which requests may arrive, and which users tokens may stand for. */
  datatype Scope = Scope(requests: Request -> bool, users: Identity -> bool)

  /** Any request of any user. */
  function Everything(): Scope
  {
    Scope(r => true, u => true)
  }

  ghost predicate KnownUsers(scope: Scope, oracle: Oracle)
  {
    forall q: Question, u: Identity | !q.AccessQuestion? && oracle(q) == Identified(Some(u)) :: scope.users(u)
  }

  predicate Arrivals(scope: Scope, actions: seq<Action>)
  {
    forall n | 0 <= n < |actions| && actions[n].Arrive? :: scope.requests(actions[n].req)
  }

  /** No two requests of the scope, and no request on its own, ask about twins. */
  ghost predicate NoTwins(st: Settings, scope: Scope)
    requires ValidSettings(st)
  {
    forall users: Oracle, r1, r2, i: nat, j: nat | KnownUsers(scope, users) && scope.requests(r1) && scope.requests(r2) ::
      !Twins(ToReview(st, r1, users), i, ToReview(st, r2, users), j)
  }

  /** Every request of every run in the scope refines the direct filter, for every reviewer of posts. */
  ghost predicate AlwaysRefines(st: Settings, scope: Scope)
    requires ValidSettings(st)
  {
    forall oracle, start, actions, id |
      && PostDetermines(oracle) && KnownUsers(scope, oracle) && Arrivals(scope, actions)
      && id in Run(st, oracle, start, actions).requests ::
      RefinesDirectFilter(st, oracle, Run(st, oracle, start, actions).requests[id])
  }

  // ---------------------------------------------------------------- what is asked

  predicate NoneAccess(questions: seq<Question>)
  {
    forall i | 0 <= i < |questions| :: !questions[i].AccessQuestion?
  }

  predicate AllIdentify(questions: seq<Question>, oracle: Oracle)
  {
    forall i | 0 <= i < |questions| :: oracle(questions[i]).Identified?
  }

  /** What is asked once the user is known, or nothing. */
  function AskedFor(st: Settings, req: Request, who: Answer, oracle: Oracle): seq<Question>
    requires ValidSettings(st)
  {
    match who
    case Identified(Some(user)) => Asked(st, req, BeginAuthorization(st, req, user), oracle)
    case _ => []
  }

  /** First the questions of the chain, then those about the user's records. */
  lemma {:induction false} AskedByChain(st: Settings, req: Request, chain: seq<Authenticator>, oracle: Oracle)
    returns (asks: seq<Question>)
    requires ValidSettings(st)
    ensures Asked(st, req, Authenticate(st, req, chain), oracle) == asks + AskedFor(st, req, WhoIs(req, chain, oracle), oracle)
    ensures NoneAccess(asks) && (WhoIs(req, chain, oracle).Identified? ==> AllIdentify(asks, oracle))
    decreases |chain|
  {
    hide BearerToken, CertificateUser, BeginAuthorization, Asked;
    asks := [];
    if chain == [] {
      AskedNothing(st, req, Respond(401), oracle);
    } else {
      var rest := AskedByChain(st, req, chain[1..], oracle);
      asks := rest;
      match chain[0]
      case ClientCertificate(prefix) =>
        if CertificateUser(req, prefix).Some? {
          asks := [];
        }
      case OidcToken =>
        if BearerToken(req).Some? {
          asks := AskedOne(st, req, OidcQuestion(BearerToken(req).value), chain[1..], oracle, rest);
        }
      case KubernetesToken =>
        if BearerToken(req).Some? {
          asks := AskedOne(st, req, TokenQuestion(BearerToken(req).value), chain[1..], oracle, rest);
        }
    }
  }

  lemma AskedNothing(st: Settings, req: Request, outcome: Outcome, oracle: Oracle)
    requires ValidSettings(st)
    ensures Asked(st, req, Done(outcome), oracle) == []
  {
  }

  lemma AskedOne(st: Settings, req: Request, q: Question, chain: seq<Authenticator>, oracle: Oracle, rest: seq<Question>)
    returns (asks: seq<Question>)
    requires ValidSettings(st) && !q.AccessQuestion?
    requires Asked(st, req, Authenticate(st, req, chain), oracle) == rest + AskedFor(st, req, WhoIs(req, chain, oracle), oracle)
    requires NoneAccess(rest) && (WhoIs(req, chain, oracle).Identified? ==> AllIdentify(rest, oracle))
    ensures
      var who := if oracle(q) == Identified(None) then WhoIs(req, chain, oracle) else oracle(q);
      && Asked(st, req, AskingUser(q, chain), oracle) == asks + AskedFor(st, req, who, oracle)
      && NoneAccess(asks) && (who.Identified? ==> AllIdentify(asks, oracle))
  {
    hide WhoIs, BeginAuthorization, Authenticate;
    var s := AskingUser(q, chain);
    assert Asked(st, req, s, oracle) == [q] + Asked(st, req, Resume(st, req, s, oracle(q)), oracle);
    asks := [q];
    if oracle(q) == Identified(None) {
      asks := [q] + rest;
      Appended(q, rest, AskedFor(st, req, WhoIs(req, chain, oracle), oracle));
    } else if !oracle(q).Identified? {
      AskedNothing(st, req, InternalError, oracle);
    }
    hide Asked;
  }

  lemma Appended(q: Question, a: seq<Question>, b: seq<Question>)
    ensures [q] + (a + b) == [q] + a + b
  {
  }

  /** The reviews asked for a user are a beginning of those needed, all but the last one answered with an allow. */
  lemma AskedAboutRecords(st: Settings, req: Request, user: Identity, oracle: Oracle)
    requires ValidSettings(st)
    ensures
      var asked := Asked(st, req, BeginAuthorization(st, req, user), oracle);
      match RecordsOf(st.config, req, user, st.platform)
      case Err(_) => asked == []
      case Ok(records) =>
        && asked <= NeedReview(st, records)
        && (forall i | 0 <= i < |asked| - 1 :: oracle(asked[i]) == Decided(true))
        && (st.hasReviewer ==> asked == NeedReview(st, records) || (asked != [] && oracle(asked[|asked| - 1]) != Decided(true)))
        && (!st.hasReviewer ==> asked == [])
  {
    hide RecordsOf, Asked, Authorize;
    match RecordsOf(st.config, req, user, st.platform)
    case Err(_) => AskedNothing(st, req, InternalError, oracle);
    case Ok(records) =>
      AskedNothing(st, req, Respond(403), oracle);
      ReviewsInOrder(st, req, user, records, oracle);
  }

  /** All a request asks: questions of the chain, then a beginning of its reviews. */
  lemma AskedByRequest(st: Settings, req: Request, oracle: Oracle) returns (asks: seq<Question>, reviews: seq<Question>)
    requires ValidSettings(st)
    ensures Asked(st, req, Start(st, req), oracle) == asks + reviews && NoneAccess(asks)
    ensures reviews <= ToReview(st, req, oracle)
    ensures forall i | 0 <= i < |reviews| - 1 :: oracle(reviews[i]) == Decided(true)
    ensures ToReview(st, req, oracle) != [] ==> AllIdentify(asks, oracle)
    ensures reviews == ToReview(st, req, oracle) || (reviews != [] && oracle(reviews[|reviews| - 1]) != Decided(true))
  {
    hide RecordsOf, BeginAuthorization, Authenticate, WhoIs, AnyMatches, Asked, NeedReview;
    if !Admitted(st, req) {
      AskedNothing(st, req, Respond(404), oracle);
      asks, reviews := [], [];
    } else if AnyMatches(st.ignore, req.path) {
      AskedNothing(st, req, Forward(None), oracle);
      asks, reviews := [], [];
    } else {
      asks := AskedByChain(st, req, st.chain, oracle);
      var who := WhoIs(req, st.chain, oracle);
      reviews := AskedFor(st, req, who, oracle);
      if who.Identified? && who.user.Some? {
        AskedAboutRecords(st, req, who.user.value, oracle);
      }
    }
  }

  // ---------------------------------------------------------------- without twins the cache is right

  /** A review that is asked, its position among those needed, and that all before it were allowed. */
  lemma AskedReviewAt(st: Settings, req: Request, oracle: Oracle, q: Question) returns (i: nat)
    requires ValidSettings(st) && q in Asked(st, req, Start(st, req), oracle) && q.AccessQuestion?
    ensures i < |ToReview(st, req, oracle)| && ToReview(st, req, oracle)[i] == q
    ensures forall m | 0 <= m < i :: oracle(ToReview(st, req, oracle)[m]) == Decided(true)
  {
    hide Asked, Start, ToReview;
    var asks, reviews := AskedByRequest(st, req, oracle);
    var k :| 0 <= k < |asks + reviews| && (asks + reviews)[k] == q;
    assert k >= |asks|;
    i := k - |asks|;
    assert reviews[i] == q;
  }

  /** Questions that requests ask under one key have one answer. */
  ghost predicate Agreeing(st: Settings, scope: Scope, oracle: Oracle)
    requires ValidSettings(st)
  {
    forall r1, r2, p, q | scope.requests(r1) && scope.requests(r2) &&
      p in Asked(st, r1, Start(st, r1), oracle) && q in Asked(st, r2, Start(st, r2), oracle) && KeyOf(p) == KeyOf(q) ::
      oracle(p) == oracle(q)
  }

  lemma SamePostSameAnswer(oracle: Oracle, p: Question, q: Question)
    requires PostDetermines(oracle) && p.AccessQuestion? && PostOf(p) == PostOf(q)
    ensures oracle(p) == oracle(q)
  {
  }

  /** Of two reviews asked under one key and posted differently, each comes up before the other or they are twins. */
  lemma ShadowedOrTwins(st: Settings, scope: Scope, oracle: Oracle, r1: Request, r2: Request, i: nat, j: nat)
    requires ValidSettings(st) && PostDetermines(oracle) && NoTwins(st, scope)
    requires KnownUsers(scope, oracle) && scope.requests(r1) && scope.requests(r2)
    requires i < |ToReview(st, r1, oracle)| && j < |ToReview(st, r2, oracle)|
    requires KeyOf(ToReview(st, r1, oracle)[i]) == KeyOf(ToReview(st, r2, oracle)[j])
    requires PostOf(ToReview(st, r1, oracle)[i]) != PostOf(ToReview(st, r2, oracle)[j]) && ToReview(st, r2, oracle)[j].AccessQuestion?
    requires forall m | 0 <= m < i :: oracle(ToReview(st, r1, oracle)[m]) == Decided(true)
    ensures oracle(ToReview(st, r2, oracle)[j]) == Decided(true)
  {
    hide ToReview, KeyOf, PostOf, KnownUsers;
    var xs, ys := ToReview(st, r1, oracle), ToReview(st, r2, oracle);
    assert !Twins(xs, i, ys, j);
    var m :| 0 <= m < i && PostOf(xs[m]) == PostOf(ys[j]);
    SamePostSameAnswer(oracle, ys[j], xs[m]);
  }

  lemma NoTwinsAgree(st: Settings, scope: Scope, oracle: Oracle, r1: Request, r2: Request, p: Question, q: Question)
    requires ValidSettings(st) && PostDetermines(oracle) && NoTwins(st, scope)
    requires KnownUsers(scope, oracle) && scope.requests(r1) && scope.requests(r2)
    requires p in Asked(st, r1, Start(st, r1), oracle) && q in Asked(st, r2, Start(st, r2), oracle) && KeyOf(p) == KeyOf(q)
    ensures oracle(p) == oracle(q)
  {
    hide Asked, Start, ToReview, NoTwins, PostDetermines, AccessKey, KnownUsers;
    if p.AccessQuestion? {
      assert q.AccessQuestion?;
      var i := AskedReviewAt(st, r1, oracle, p);
      var j := AskedReviewAt(st, r2, oracle, q);
      hide KeyOf, PostOf;
      if PostOf(p) == PostOf(q) {
        SamePostSameAnswer(oracle, p, q);
      } else {
        ShadowedOrTwins(st, scope, oracle, r1, r2, i, j);
        ShadowedOrTwins(st, scope, oracle, r2, r1, j, i);
      }
    }
  }

  /** Every review of the log is of a question that some request of the scope asks. */
  ghost predicate AllAsked(st: Settings, scope: Scope, oracle: Oracle, log: seq<Reviewed>)
    requires ValidSettings(st)
  {
    forall k | 0 <= k < |log| :: exists req :: scope.requests(req) && log[k].question in Asked(st, req, Start(st, req), oracle)
  }

  lemma AskedLogDisturbsNobody(st: Settings, scope: Scope, oracle: Oracle, log: seq<Reviewed>, req: Request)
    requires ValidSettings(st) && Agreeing(st, scope, oracle) && AllAsked(st, scope, oracle, log) && scope.requests(req)
    ensures Undisturbed(st, oracle, log, req)
  {
    hide Asked, Start, KeyOf;
    var asked := Asked(st, req, Start(st, req), oracle);
    forall i, k | 0 <= i < |asked| && 0 <= k < |log| && KeyOf(log[k].question) == KeyOf(asked[i])
      ensures oracle(log[k].question) == oracle(asked[i])
    {
      var other :| scope.requests(other) && log[k].question in Asked(st, other, Start(st, other), oracle);
      assert asked[i] in asked;
    }
  }

  /** Only an evaluation adds to the log, and it adds what its caller asked. */
  lemma LogGrowsByEvaluation(st: Settings, oracle: Oracle, s: System, a: Action)
    requires WellFormed(st, s)
    ensures
      var log, log' := s.reviews.reviews, Step(st, oracle, s, a).reviews.reviews;
      || log' == log
      || (a.Evaluate? && a.id in s.reviews.callers && |log'| == |log| + 1 && log' == log + [log'[|log|]]
          && log'[|log|].question == s.reviews.callers[a.id].question)
  {
    hide RecordsOf, Authenticate, BeginAuthorization, Authorize, DecideOn, AccessKey, Start, Resume, Need, KeyOf;
  }

  predicate InScope(scope: Scope, s: System)
  {
    forall id | id in s.requests :: scope.requests(s.requests[id].req)
  }

  lemma {:induction false} EveryRequestIsInScope(st: Settings, scope: Scope, oracle: Oracle, start: real, actions: seq<Action>)
    requires ValidSettings(st) && Arrivals(scope, actions)
    ensures InScope(scope, Run(st, oracle, start, actions))
  {
    hide Step;
    if actions != [] {
      var last := |actions| - 1;
      assert forall n | 0 <= n < last :: actions[..last][n] == actions[n];
      EveryRequestIsInScope(st, scope, oracle, start, actions[..last]);
      hide InScope;
      StepStaysInScope(st, scope, oracle, Run(st, oracle, start, actions[..last]), actions[last]);
    }
  }

  lemma StepStaysInScope(st: Settings, scope: Scope, oracle: Oracle, s: System, a: Action)
    requires EndToEnd.WellFormed(st, s) && InScope(scope, s) && (a.Arrive? ==> scope.requests(a.req))
    ensures InScope(scope, Step(st, oracle, s, a))
  {
    hide RecordsOf, Authenticate, BeginAuthorization, Authorize, DecideOn, AccessKey, Start, Resume, Need, KeyOf, ReviewCache.Step;
  }

  lemma {:induction false} EveryReviewIsAsked(st: Settings, scope: Scope, oracle: Oracle, start: real, actions: seq<Action>)
    requires ValidSettings(st) && Agreeing(st, scope, oracle) && Arrivals(scope, actions)
    ensures AllAsked(st, scope, oracle, Run(st, oracle, start, actions).reviews.reviews)
  {
    if actions != [] {
      var before, a := actions[..|actions| - 1], actions[|actions| - 1];
      EveryReviewIsAsked(st, scope, oracle, start, before);
      EveryRequestIsInScope(st, scope, oracle, start, before);
      var s, s' := Run(st, oracle, start, before), Run(st, oracle, start, actions);
      assert s' == Step(st, oracle, s, a);
      LogGrowsByEvaluation(st, oracle, s, a);
      hide Run, Step;
      var log, log' := s.reviews.reviews, s'.reviews.reviews;
      if log' != log {
        EveryRunKeepsInvariant(st, oracle, log, start, before);
        CallerAsks(st, scope, oracle, log, s, a.id);
        LongerLogIsAsked(st, scope, oracle, log, log'[|log|], s.requests[a.id].req);
      }
    }
  }

  /** A caller of an undisturbed request asks what the direct filter would ask. */
  lemma CallerAsks(st: Settings, scope: Scope, oracle: Oracle, log: seq<Reviewed>, s: System, id: nat)
    requires WellFormed(st, s) && Invariant(st, oracle, log, s) && Agreeing(st, scope, oracle) && AllAsked(st, scope, oracle, log)
    requires id in s.reviews.callers && InScope(scope, s)
    ensures id in s.requests
    ensures s.reviews.callers[id].question in Asked(st, s.requests[id].req, Start(st, s.requests[id].req), oracle)
  {
    hide Need, Asked, Start, OnCourse, Agreeing, AllAsked, HonestCache;
    assert TruthfulCaller(oracle, s, id);
    AskedLogDisturbsNobody(st, scope, oracle, log, s.requests[id].req);
    PendingIsAsked(st, oracle, log, s.requests[id]);
  }

  lemma LongerLogIsAsked(st: Settings, scope: Scope, oracle: Oracle, log: seq<Reviewed>, x: Reviewed, req: Request)
    requires ValidSettings(st) && AllAsked(st, scope, oracle, log) && scope.requests(req) && x.question in Asked(st, req, Start(st, req), oracle)
    ensures AllAsked(st, scope, oracle, log + [x])
  {
    hide Asked, Start;
    forall k | 0 <= k < |log + [x]|
      ensures exists r :: scope.requests(r) && (log + [x])[k].question in Asked(st, r, Start(st, r), oracle)
    {
      if k < |log| {
        var r :| scope.requests(r) && log[k].question in Asked(st, r, Start(st, r), oracle);
        assert (log + [x])[k].question in Asked(st, r, Start(st, r), oracle);
      } else {
        assert (log + [x])[k].question in Asked(st, req, Start(st, req), oracle);
      }
    }
  }

  lemma WithoutTwinsAllRefine(st: Settings, scope: Scope, oracle: Oracle, start: real, actions: seq<Action>, id: nat)
    requires ValidSettings(st) && NoTwins(st, scope) && PostDetermines(oracle) && KnownUsers(scope, oracle)
    requires Arrivals(scope, actions) && id in Run(st, oracle, start, actions).requests
    ensures RefinesDirectFilter(st, oracle, Run(st, oracle, start, actions).requests[id])
  {
    hide *;
    NoTwinsAgreeing(st, scope, oracle);
    EveryRequestIsInScope(st, scope, oracle, start, actions);
    EveryReviewIsAsked(st, scope, oracle, start, actions);
    var s := Run(st, oracle, start, actions);
    RequestInScope(scope, s, id);
    AskedLogDisturbsNobody(st, scope, oracle, s.reviews.reviews, s.requests[id].req);
    CachedFilterRefinesDirectFilter(st, oracle, start, actions, id);
  }

  lemma RequestInScope(scope: Scope, s: System, id: nat)
    requires InScope(scope, s) && id in s.requests
    ensures scope.requests(s.requests[id].req)
  {
  }

  lemma NoTwinsAgreeing(st: Settings, scope: Scope, oracle: Oracle)
    requires ValidSettings(st) && NoTwins(st, scope) && PostDetermines(oracle) && KnownUsers(scope, oracle)
    ensures Agreeing(st, scope, oracle)
  {
    hide Asked, Start, NoTwins, PostDetermines, KeyOf, KnownUsers;
    forall r1, r2, p, q | scope.requests(r1) && scope.requests(r2) &&
      p in Asked(st, r1, Start(st, r1), oracle) && q in Asked(st, r2, Start(st, r2), oracle) && KeyOf(p) == KeyOf(q)
      ensures oracle(p) == oracle(q)
    {
      NoTwinsAgree(st, scope, oracle, r1, r2, p, q);
    }
  }
}
