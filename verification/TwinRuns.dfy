/**
  Twins change decisions. Where settings admit a pair, a run is built in which one record's
  verdict is served for the other: with that, the condition of module SharedKeys is exact.
 */
module TwinRuns {
  import opened Wrappers
  import opened Config
  import opened EndpointMatching
  import opened Authorization
  import opened ReviewApi
  import opened Environment
  import opened PathFilter
  import opened Pipeline
  import opened EndToEnd
  import opened SharedKeys
  import Templates
  import ReviewCache

  // ---------------------------------------------------------------- two reviewers

  /** `users` for identities, and an allow for every record. */
  function Lenient(users: Oracle): Oracle
  {
    (q: Question) => if q.AccessQuestion? then Decided(true) else users(q)
  }

  /** `users` for identities, and an allow for every record but those posted like this. */
  function Strict(users: Oracle, denied: Option<ReviewRequest>): Oracle
  {
    (q: Question) => if q.AccessQuestion? then Decided(PostOf(q) != denied) else users(q)
  }

  lemma StrictGoesByPosts(users: Oracle, denied: Option<ReviewRequest>)
    ensures PostDetermines(Strict(users, denied))
  {
    hide AccessReviewOf;
    forall a, b | AccessReviewOf(a) == AccessReviewOf(b)
      ensures Strict(users, denied)(AccessQuestion(a)) == Strict(users, denied)(AccessQuestion(b))
    {
      assert PostOf(AccessQuestion(a)) == PostOf(AccessQuestion(b));
    }
  }

  lemma {:induction false} WhoIsGoesByUsers(req: Request, chain: seq<Authenticator>, a: Oracle, b: Oracle)
    requires forall q: Question | !q.AccessQuestion? :: a(q) == b(q)
    ensures WhoIs(req, chain, a) == WhoIs(req, chain, b)
  {
    hide BearerToken, CertificateUser;
    if chain != [] {
      WhoIsGoesByUsers(req, chain[1..], a, b);
    }
  }

  lemma ToReviewGoesByUsers(st: Settings, req: Request, a: Oracle, b: Oracle)
    requires ValidSettings(st) && forall q: Question | !q.AccessQuestion? :: a(q) == b(q)
    ensures ToReview(st, req, a) == ToReview(st, req, b)
  {
    WhoIsGoesByUsers(req, st.chain, a, b);
    hide WhoIs, RecordsOf, NeedReview, AnyMatches;
  }

  // ---------------------------------------------------------------- driving a request through its stages

  /** No caller is under way, all entries are of this moment and hold what `lenient` answers. */
  ghost predicate Calm(lenient: Oracle, reviews: Reviews)
  {
    && reviews.callers == map[] && reviews.ttl == ReviewCache.TTL
    && (forall k | k in reviews.cache :: reviews.cache[k].at == reviews.now)
    && (forall q | KeyOf(q) in reviews.cache :: reviews.cache[KeyOf(q)].verdict == lenient(q))
    && (forall k | k in reviews.cache :: !k.Uncached?)
  }

  /** The reviewer answers as `lenient` does, or need not be asked. */
  predicate Passable(lenient: Oracle, oracle: Oracle, reviews: Reviews, q: Question)
  {
    lenient(q) != Failed && (oracle(q) == lenient(q) || KeyOf(q) in reviews.cache)
  }

  /** Cached keys only become more. */
  predicate KeepsKeys(before: Reviews, after: Reviews)
  {
    forall k | k in before.cache :: k in after.cache
  }

  /** A fresh entry answers at once. */
  lemma HitCalmly(lenient: Oracle, reviews: Reviews, id: nat, q: Question)
    requires Calm(lenient, reviews) && KeyOf(q) in reviews.cache
    ensures
      var reviews' := ReviewCache.Step(reviews, ReviewCache.Ask(id, q), KeyOf);
      && Calm(lenient, reviews') && reviews'.cache == reviews.cache && reviews'.served != []
      && reviews'.served[|reviews'.served| - 1].verdict == lenient(q)
  {
    hide KeyOf;
    assert ReviewCache.Lookup(reviews.cache, KeyOf(q), reviews.now, reviews.ttl) == Some(reviews.cache[KeyOf(q)].verdict);
  }

  /** What three steps make of a miss. */
  function Missed(reviews: Reviews, id: nat, q: Question, answer: Answer): Reviews
  {
    var asked := ReviewCache.Step(reviews, ReviewCache.Ask(id, q), KeyOf);
    var evaluated := ReviewCache.Step(asked, ReviewCache.Evaluate(id, answer), KeyOf);
    ReviewCache.Step(evaluated, ReviewCache.Finish(id), KeyOf)
  }

  lemma LenientByKey(users: Oracle, p: Question, q: Question)
    requires KeyOf(p) == KeyOf(q)
    ensures Lenient(users)(p) == Lenient(users)(q)
  {
    hide AccessKey;
  }

  lemma MissCalmly(users: Oracle, reviews: Reviews, id: nat, q: Question)
    requires Calm(Lenient(users), reviews) && KeyOf(q) !in reviews.cache && !q.OidcQuestion?
    ensures
      var answer := Lenient(users)(q);
      var asked := ReviewCache.Step(reviews, ReviewCache.Ask(id, q), KeyOf);
      var evaluated := ReviewCache.Step(asked, ReviewCache.Evaluate(id, answer), KeyOf);
      var finished := Missed(reviews, id, q, answer);
      && asked.callers == map[id := ReviewCache.InFlight(q)]
      && evaluated.callers == map[id := ReviewCache.Evaluated(q, answer, reviews.now)]
      && Calm(Lenient(users), finished) && KeepsKeys(reviews, finished) && KeyOf(q) in finished.cache
  {
    assert !KeyOf(q).Uncached?;
    forall p | KeyOf(p) == KeyOf(q)
      ensures Lenient(users)(p) == Lenient(users)(q)
    {
      LenientByKey(users, p, q);
    }
    hide KeyOf, Lenient;
  }

  /** One more question of a request, answered as `lenient` does. */
  ghost predicate Drove(st: Settings, lenient: Oracle, s: System, s': System, id: nat)
    requires EndToEnd.WellFormed(st, s) && Pending(s, id).Some?
  {
    var p, q := s.requests[id], Pending(s, id).value;
    && Calm(lenient, s'.reviews) && KeepsKeys(s.reviews, s'.reviews)
    && (!q.OidcQuestion? ==> KeyOf(q) in s'.reviews.cache)
    && s'.requests == s.requests[id := Progress(p.req, Resume(st, p.req, p.stage, lenient(q)), p.interrupted)]
  }

  lemma DriveHit(st: Settings, lenient: Oracle, oracle: Oracle, s: System, id: nat)
    requires EndToEnd.WellFormed(st, s) && Calm(lenient, s.reviews) && Pending(s, id).Some?
    requires KeyOf(Pending(s, id).value) in s.reviews.cache
    ensures Drove(st, lenient, s, Step(st, oracle, s, Ask(id)), id)
  {
    var q := Pending(s, id).value;
    assert !q.OidcQuestion?;
    HitCalmly(lenient, s.reviews, id, q);
    assert Calm(lenient, ReviewCache.Step(s.reviews, ReviewCache.Ask(id, q), KeyOf));
    hide KeyOf, Need, Resume, ReviewCache.Step;
  }

  lemma DriveOidc(st: Settings, lenient: Oracle, oracle: Oracle, s: System, id: nat)
    requires EndToEnd.WellFormed(st, s) && Calm(lenient, s.reviews) && Pending(s, id).Some? && Pending(s, id).value.OidcQuestion?
    requires oracle(Pending(s, id).value) == lenient(Pending(s, id).value)
    ensures Drove(st, lenient, s, Step(st, oracle, s, AnswerOidc(id)), id)
  {
    hide KeyOf, Need, Resume, ReviewCache.Step;
  }

  lemma DriveMiss(st: Settings, users: Oracle, oracle: Oracle, s: System, id: nat)
    requires EndToEnd.WellFormed(st, s) && Calm(Lenient(users), s.reviews) && Pending(s, id).Some? && !Pending(s, id).value.OidcQuestion?
    requires KeyOf(Pending(s, id).value) !in s.reviews.cache
    requires Lenient(users)(Pending(s, id).value) != Failed && oracle(Pending(s, id).value) == Lenient(users)(Pending(s, id).value)
    ensures
      var asked := Step(st, oracle, s, Ask(id));
      var evaluated := Step(st, oracle, asked, Evaluate(id));
      Drove(st, Lenient(users), s, Step(st, oracle, evaluated, Finish(id)), id)
  {
    var q := Pending(s, id).value;
    MissCalmly(users, s.reviews, id, q);
    hide Lenient, KeyOf, Need, Resume, ReviewCache.Step, Calm, KeepsKeys;
  }

  predicate NobodyArrives(actions: seq<Action>)
  {
    forall n | 0 <= n < |actions| :: !actions[n].Arrive?
  }

  /** What drives one question of a request through, with the reviewer asked only where the cache is silent. */
  lemma DriveOne(st: Settings, users: Oracle, oracle: Oracle, start: real, actions: seq<Action>, id: nat)
    returns (more: seq<Action>)
    requires ValidSettings(st) && Calm(Lenient(users), Run(st, oracle, start, actions).reviews)
    requires Pending(Run(st, oracle, start, actions), id).Some?
    requires
      var s := Run(st, oracle, start, actions);
      Passable(Lenient(users), oracle, s.reviews, Pending(s, id).value)
    requires forall q: Question | q.OidcQuestion? :: oracle(q) == Lenient(users)(q)
    ensures Drove(st, Lenient(users), Run(st, oracle, start, actions), Run(st, oracle, start, actions + more), id)
    ensures NobodyArrives(more)
  {
    var s := Run(st, oracle, start, actions);
    var q := Pending(s, id).value;
    if KeyOf(q) in s.reviews.cache {
      more := [Ask(id)];
      assert NobodyArrives(more);
      DriveHit(st, Lenient(users), oracle, s, id);
      hide *;
      RunMore(st, oracle, start, actions, Ask(id));
    } else if q.OidcQuestion? {
      more := [AnswerOidc(id)];
      assert NobodyArrives(more);
      DriveOidc(st, Lenient(users), oracle, s, id);
      hide *;
      RunMore(st, oracle, start, actions, AnswerOidc(id));
    } else {
      more := [Ask(id), Evaluate(id), Finish(id)];
      assert NobodyArrives(more);
      DriveMiss(st, users, oracle, s, id);
      hide *;
      RunMore(st, oracle, start, actions, Ask(id));
      RunMore(st, oracle, start, actions + [Ask(id)], Evaluate(id));
      RunMore(st, oracle, start, actions + [Ask(id)] + [Evaluate(id)], Finish(id));
      assert actions + [Ask(id)] + [Evaluate(id)] + [Finish(id)] == actions + more;
    }
  }

  /** The first `n` questions a request asks under `lenient`, answered as `lenient` does. */
  ghost predicate DroveSome(st: Settings, lenient: Oracle, s: System, s': System, id: nat, n: nat)
    requires EndToEnd.WellFormed(st, s) && EndToEnd.WellFormed(st, s') && id in s.requests
  {
    && Calm(lenient, s'.reviews) && KeepsKeys(s.reviews, s'.reviews)
    && id in s'.requests && s'.requests == s.requests[id := s'.requests[id]]
    && var p, p' := s.requests[id], s'.requests[id];
       && p'.req == p.req && p'.interrupted == p.interrupted
       && Conclude(st, p.req, p'.stage, lenient) == Conclude(st, p.req, p.stage, lenient)
       && var asked := Asked(st, p.req, p.stage, lenient);
          && n <= |asked| && Asked(st, p.req, p'.stage, lenient) == asked[n..]
          && forall m | 0 <= m < n :: asked[m].OidcQuestion? || KeyOf(asked[m]) in s'.reviews.cache
  }

  ghost predicate PassableAll(st: Settings, lenient: Oracle, oracle: Oracle, s: System, id: nat, n: nat)
    requires EndToEnd.WellFormed(st, s) && id in s.requests
  {
    var asked := Asked(st, s.requests[id].req, s.requests[id].stage, lenient);
    n <= |asked| && forall m | 0 <= m < n :: Passable(lenient, oracle, s.reviews, asked[m])
  }

  /** A request that still has something to ask waits for it. */
  lemma AskedIsPending(st: Settings, lenient: Oracle, s: System, id: nat)
    requires EndToEnd.WellFormed(st, s) && id in s.requests
    requires Asked(st, s.requests[id].req, s.requests[id].stage, lenient) != []
    ensures
      var p := s.requests[id];
      && Pending(s, id).Some?
      && var q := Pending(s, id).value;
         var next := Resume(st, p.req, p.stage, lenient(q));
         && Asked(st, p.req, p.stage, lenient) == [q] + Asked(st, p.req, next, lenient)
         && Conclude(st, p.req, p.stage, lenient) == Conclude(st, p.req, next, lenient)
  {
    hide RecordsOf, Authenticate, BeginAuthorization, Authorize;
  }

  /** After one question the rest is as passable as before. */
  lemma PassableStays(st: Settings, lenient: Oracle, oracle: Oracle, s: System, mid: System, id: nat, n: nat)
    requires EndToEnd.WellFormed(st, s) && EndToEnd.WellFormed(st, mid) && id in s.requests && Pending(s, id).Some? && Drove(st, lenient, s, mid, id)
    requires n > 0 && PassableAll(st, lenient, oracle, s, id, n)
    ensures PassableAll(st, lenient, oracle, mid, id, n - 1)
  {
    AskedIsPending(st, lenient, s, id);
    hide Need, Resume, Asked, Conclude, Calm, KeyOf;
    var p, q := s.requests[id], Pending(s, id).value;
    var asked, rest := Asked(st, p.req, p.stage, lenient), Asked(st, p.req, mid.requests[id].stage, lenient);
    assert asked == [q] + rest;
    forall m | 0 <= m < n - 1
      ensures Passable(lenient, oracle, mid.reviews, rest[m])
    {
      assert rest[m] == asked[m + 1];
      assert Passable(lenient, oracle, s.reviews, asked[m + 1]);
    }
  }

  lemma UpdatedTwice<V>(before: map<nat, V>, id: nat, v: V, w: V)
    ensures before[id := v][id := w] == before[id := w]
  {
  }

  lemma DroveThenSome(st: Settings, lenient: Oracle, s: System, mid: System, s': System, id: nat, n: nat)
    requires EndToEnd.WellFormed(st, s) && EndToEnd.WellFormed(st, mid) && EndToEnd.WellFormed(st, s')
    requires id in s.requests && id in mid.requests && Pending(s, id).Some?
    requires Drove(st, lenient, s, mid, id) && DroveSome(st, lenient, mid, s', id, n)
    ensures DroveSome(st, lenient, s, s', id, n + 1)
  {
    var p, q := s.requests[id], Pending(s, id).value;
    assert Need(p.stage) == Some(q);
    MoreToAsk(st, lenient, p.req, p.stage);
    hide Need, Pending, Resume, Asked, Conclude, Calm, KeyOf;
    KeysStayKept(s.reviews, mid.reviews, s'.reviews);
    assert mid.requests == s.requests[id := mid.requests[id]];
    UpdatedTwice(s.requests, id, mid.requests[id], s'.requests[id]);
    var asked, rest := Asked(st, p.req, p.stage, lenient), Asked(st, p.req, mid.requests[id].stage, lenient);
    var cache := s'.reviews.cache;
    assert q.OidcQuestion? || KeyOf(q) in cache;
    hide KeepsKeys;
    TailOfAsked(asked, q, rest, n, cache);
  }

  lemma KeysStayKept(a: Reviews, b: Reviews, c: Reviews)
    requires KeepsKeys(a, b) && KeepsKeys(b, c)
    ensures KeepsKeys(a, c)
  {
  }

  lemma TailOfAsked(asked: seq<Question>, q: Question, rest: seq<Question>, n: nat, cache: map<CacheKey, ReviewCache.Entry<Answer>>)
    requires asked == [q] + rest && n <= |rest| && (q.OidcQuestion? || KeyOf(q) in cache)
    requires forall m | 0 <= m < n :: rest[m].OidcQuestion? || KeyOf(rest[m]) in cache
    ensures asked[n + 1..] == rest[n..]
    ensures forall m | 0 <= m < n + 1 :: asked[m].OidcQuestion? || KeyOf(asked[m]) in cache
  {
    hide KeyOf;
    assert forall m | 0 < m < n + 1 :: asked[m] == rest[m - 1];
  }

  lemma MoreToAsk(st: Settings, lenient: Oracle, req: Request, stage: Stage)
    requires ValidSettings(st) && SoundStage(st, stage) && Need(stage).Some?
    ensures
      var q := Need(stage).value;
      var next := Resume(st, req, stage, lenient(q));
      && Asked(st, req, stage, lenient) == [q] + Asked(st, req, next, lenient)
      && Conclude(st, req, stage, lenient) == Conclude(st, req, next, lenient)
  {
    hide RecordsOf, Authenticate, BeginAuthorization, Authorize;
  }

  lemma {:induction false} DriveSome(st: Settings, users: Oracle, oracle: Oracle, start: real, actions: seq<Action>, id: nat, n: nat)
    returns (more: seq<Action>)
    requires ValidSettings(st) && Calm(Lenient(users), Run(st, oracle, start, actions).reviews)
    requires id in Run(st, oracle, start, actions).requests
    requires PassableAll(st, Lenient(users), oracle, Run(st, oracle, start, actions), id, n)
    requires forall q: Question | q.OidcQuestion? :: oracle(q) == Lenient(users)(q)
    ensures DroveSome(st, Lenient(users), Run(st, oracle, start, actions), Run(st, oracle, start, actions + more), id, n)
    ensures NobodyArrives(more)
    decreases n
  {
    hide *;
    var s := Run(st, oracle, start, actions);
    if n == 0 {
      more := [];
      NobodyInBoth([], []);
      assert actions + more == actions;
      DroveNothing(st, Lenient(users), s, id);
    } else {
      FirstIsPassable(st, Lenient(users), oracle, s, id, n);
      var first := DriveOne(st, users, oracle, start, actions, id);
      var mid := Run(st, oracle, start, actions + first);
      PassableStays(st, Lenient(users), oracle, s, mid, id, n);
      DroveLeaves(st, Lenient(users), s, mid, id);
      var rest := DriveSome(st, users, oracle, start, actions + first, id, n - 1);
      more := first + rest;
      NobodyInBoth(first, rest);
      assert actions + first + rest == actions + more;
      DroveThenSome(st, Lenient(users), s, mid, Run(st, oracle, start, actions + more), id, n - 1);
    }
  }

  lemma NobodyInBoth(a: seq<Action>, b: seq<Action>)
    ensures NobodyArrives([])
    ensures NobodyArrives(a) && NobodyArrives(b) ==> NobodyArrives(a + b)
  {
  }

  lemma DroveNothing(st: Settings, lenient: Oracle, s: System, id: nat)
    requires EndToEnd.WellFormed(st, s) && id in s.requests && Calm(lenient, s.reviews)
    ensures DroveSome(st, lenient, s, s, id, 0)
  {
    hide Asked, Conclude, Calm, KeyOf;
    var asked := Asked(st, s.requests[id].req, s.requests[id].stage, lenient);
    assert asked[0..] == asked;
  }

  lemma DroveLeaves(st: Settings, lenient: Oracle, s: System, mid: System, id: nat)
    requires EndToEnd.WellFormed(st, s) && Pending(s, id).Some? && Drove(st, lenient, s, mid, id)
    ensures id in mid.requests && Calm(lenient, mid.reviews)
  {
    hide Calm, Resume, Need, KeyOf;
  }

  lemma FirstIsPassable(st: Settings, lenient: Oracle, oracle: Oracle, s: System, id: nat, n: nat)
    requires EndToEnd.WellFormed(st, s) && id in s.requests && n > 0 && PassableAll(st, lenient, oracle, s, id, n)
    ensures Pending(s, id).Some? && Passable(lenient, oracle, s.reviews, Pending(s, id).value)
  {
    AskedIsPending(st, lenient, s, id);
    hide Need, Resume, Asked, Conclude, Passable;
    assert Asked(st, s.requests[id].req, s.requests[id].stage, lenient)[0] == Pending(s, id).value;
  }

  // ---------------------------------------------------------------- twins end a request wrongly

  /** All records of a request carry its user and its path, and a record that is no resource stands alone. */
  predicate OfOneRequest(records: seq<Attributes>, req: Request, user: Identity)
  {
    && (forall i | 0 <= i < |records| :: records[i].user == user && records[i].path == req.path)
    && (|records| > 1 ==> forall i | 0 <= i < |records| :: records[i].resourceRequest)
  }

  lemma RecordsAreOfOneRequest(cfg: AuthorizationConfig, req: Request, user: Identity, platform: Platform)
    requires Templates.IsHashOrder(platform.order) && RecordsOf(cfg, req, user, platform).Ok?
    ensures OfOneRequest(RecordsOf(cfg, req, user, platform).value, req, user)
  {
    hide EndpointMatch, KubeVerb, ExpandValueOnly, RuleRecord, CollectedValues;
    FirstEndpointIsFirst(cfg.endpoints, req.path, platform.lossy);
    match FirstEndpoint(cfg.endpoints, req.path, platform.lossy)
    case None =>
    case Some(k) =>
      var endpoint := cfg.endpoints[k];
      var captures := EndpointMatch(endpoint.path, req.path, platform.lossy).value;
      var m := FirstMapping(endpoint.mappings, req.httpMethod).value;
      RuleRecordsAreOfOneRequest(endpoint.mappings[m].resources, captures, platform.order(captures), req, user);
  }

  lemma {:induction false} RuleRecordsAreOfOneRequest(rules: seq<Rule>, captures: Captures, keys: seq<string>, req: Request, user: Identity)
    requires forall k | k in keys :: k in captures
    requires RuleRecords(rules, captures, keys, req, user).Ok?
    ensures
      var records := RuleRecords(rules, captures, keys, req, user).value;
      forall i | 0 <= i < |records| :: records[i].user == user && records[i].path == req.path && records[i].resourceRequest
  {
    hide ExpandAttributes, EndpointRewrites, KubeVerb;
    if rules != [] {
      RuleRecordsAreOfOneRequest(rules[1..], captures, keys, req, user);
    }
  }

  /** Within a request, one post is one record. */
  lemma OnePostOneRecord(records: seq<Attributes>, req: Request, user: Identity, i: nat, j: nat)
    requires OfOneRequest(records, req, user) && i < |records| && j < |records|
    requires AccessReviewOf(records[i]) == AccessReviewOf(records[j])
    ensures records[i] == records[j]
  {
    if i != j {
      assert records[i].resourceRequest && records[j].resourceRequest;
    }
  }

  lemma {:induction false} NeedReviewFrom(st: Settings, records: seq<Attributes>, q: Question)
    requires q in NeedReview(st, records)
    ensures q.AccessQuestion? && q.attributes in records && !StaticAllows(st.config.staticRules, q.attributes)
  {
    hide StaticAllows;
    if records != [] {
      if q in NeedReview(st, records[1..]) {
        NeedReviewFrom(st, records[1..], q);
      }
    }
  }

  /** The user and the records behind the reviews of a request. */
  lemma BehindReviews(st: Settings, req: Request, users: Oracle) returns (user: Identity, records: seq<Attributes>)
    requires ValidSettings(st) && ToReview(st, req, users) != []
    ensures st.hasReviewer && Admitted(st, req) && !AnyMatches(st.ignore, req.path)
    ensures WhoIs(req, st.chain, users) == Identified(Some(user))
    ensures RecordsOf(st.config, req, user, st.platform) == Ok(records) && records != []
    ensures ToReview(st, req, users) == NeedReview(st, records) && OfOneRequest(records, req, user)
  {
    hide WhoIs, RecordsOf, AnyMatches;
    user := WhoIs(req, st.chain, users).user.value;
    records := RecordsOf(st.config, req, user, st.platform).value;
    RecordsAreOfOneRequest(st.config, req, user, st.platform);
  }

  lemma ReviewsAreOfOneRequest(st: Settings, req: Request, users: Oracle, i: nat, j: nat)
    requires ValidSettings(st) && i < |ToReview(st, req, users)| && j < |ToReview(st, req, users)|
    ensures ToReview(st, req, users)[i].AccessQuestion?
    ensures PostOf(ToReview(st, req, users)[i]) == PostOf(ToReview(st, req, users)[j]) ==>
              ToReview(st, req, users)[i] == ToReview(st, req, users)[j]
  {
    var user, records := BehindReviews(st, req, users);
    hide ToReview, NeedReview, OfOneRequest, AccessReviewOf;
    var p, q := ToReview(st, req, users)[i], ToReview(st, req, users)[j];
    NeedReviewFrom(st, records, p);
    NeedReviewFrom(st, records, q);
    var a :| 0 <= a < |records| && records[a] == p.attributes;
    var b :| 0 <= b < |records| && records[b] == q.attributes;
    if PostOf(p) == PostOf(q) {
      OnePostOneRecord(records, req, user, a, b);
    }
  }

  /** The lenient reviewer is asked about all records that need a review, and the request is forwarded. */
  lemma LenientForwards(st: Settings, req: Request, users: Oracle) returns (asks: seq<Question>)
    requires ValidSettings(st) && ToReview(st, req, users) != []
    ensures Asked(st, req, Start(st, req), Lenient(users)) == asks + ToReview(st, req, users)
    ensures NoneAccess(asks) && AllIdentify(asks, Lenient(users))
    ensures Decide(st, req, Lenient(users)).Forward?
  {
    hide Asked, Start, ToReview, Decide, RecordsOf, WhoIs, AnyMatches, NeedReview, OfOneRequest;
    var lenient := Lenient(users);
    ToReviewGoesByUsers(st, req, users, lenient);
    var user, records := BehindReviews(st, req, lenient);
    var reviews;
    asks, reviews := AskedByRequest(st, req, lenient);
    if reviews != [] {
      ReviewsAreOfOneRequest(st, req, lenient, |reviews| - 1, 0);
    }
    ForwardedMeaning(st, req, lenient, Some(user));
  }

  /** A reviewer that denies the post of one of its records does not forward the request. */
  lemma StrictRefuses(st: Settings, req: Request, users: Oracle, j: nat)
    requires ValidSettings(st) && j < |ToReview(st, req, users)|
    ensures !Decide(st, req, Strict(users, PostOf(ToReview(st, req, users)[j]))).Forward?
  {
    hide ToReview, Decide, RecordsOf, WhoIs, AnyMatches, NeedReview, OfOneRequest;
    var q := ToReview(st, req, users)[j];
    var strict := Strict(users, PostOf(q));
    ToReviewGoesByUsers(st, req, users, strict);
    var user, records := BehindReviews(st, req, strict);
    NeedReviewFrom(st, records, q);
    var a :| 0 <= a < |records| && records[a] == q.attributes;
    assert AccessQuestion(records[a]) == q;
    hide PostOf;
    assert !Passes(st, strict, records[a]);
    hide Passes;
    var decided := Decide(st, req, strict);
    if decided.Forward? {
      ForwardedMeaning(st, req, strict, decided.identity);
    }
  }

  /** The question may be put to the strict reviewer, or its key is cached. */
  predicate Harmless(users: Oracle, denied: Option<ReviewRequest>, reviews: Reviews, q: Question)
  {
    if q.AccessQuestion? then PostOf(q) != denied || KeyOf(q) in reviews.cache else users(q).Identified?
  }

  lemma HarmlessIsPassable(users: Oracle, denied: Option<ReviewRequest>, reviews: Reviews, q: Question)
    requires Harmless(users, denied, reviews, q)
    ensures Passable(Lenient(users), Strict(users, denied), reviews, q)
  {
    hide PostOf, KeyOf;
  }

  lemma AllHarmless(st: Settings, users: Oracle, denied: Option<ReviewRequest>, s: System, id: nat,
                    asks: seq<Question>, reviews: seq<Question>, n: nat)
    requires EndToEnd.WellFormed(st, s) && id in s.requests && n <= |reviews|
    requires Asked(st, s.requests[id].req, s.requests[id].stage, Lenient(users)) == asks + reviews
    requires NoneAccess(asks) && AllIdentify(asks, Lenient(users))
    requires forall m | 0 <= m < n :: Harmless(users, denied, s.reviews, reviews[m])
    ensures PassableAll(st, Lenient(users), Strict(users, denied), s, id, |asks| + n)
  {
    hide Asked, PostOf, KeyOf, Passable;
    forall m | 0 <= m < |asks| + n
      ensures Passable(Lenient(users), Strict(users, denied), s.reviews, (asks + reviews)[m])
    {
      var q := (asks + reviews)[m];
      if m < |asks| {
        assert q == asks[m] && Lenient(users)(q) == users(q);
      } else {
        assert q == reviews[m - |asks|];
      }
      HarmlessIsPassable(users, denied, s.reviews, q);
    }
  }

  /** A request arrives and starts; everything else is as it was. */
  lemma ArriveCalmly(st: Settings, lenient: Oracle, oracle: Oracle, start: real, actions: seq<Action>, id: nat, req: Request)
    requires ValidSettings(st) && id !in Run(st, oracle, start, actions).requests
    requires Calm(lenient, Run(st, oracle, start, actions).reviews)
    ensures
      var s, s' := Run(st, oracle, start, actions), Run(st, oracle, start, actions + [Arrive(id, req)]);
      && s'.reviews == s.reviews && s'.requests == s.requests[id := Progress(req, Start(st, req), false)]
  {
    hide Calm, Start;
    RunMore(st, oracle, start, actions, Arrive(id, req));
    hide Run;
  }

  lemma CalmAtFirst(st: Settings, lenient: Oracle, oracle: Oracle, start: real)
    requires ValidSettings(st)
    ensures Calm(lenient, Run(st, oracle, start, []).reviews) && Run(st, oracle, start, []).requests == map[]
  {
    hide KeyOf;
  }

  /** A request new to `before` has come past its first `n` reviews, to its end if there are no more. */
  ghost predicate BroughtUp(st: Settings, users: Oracle, before: map<nat, Progress>, s: System, id: nat, req: Request, n: nat)
    requires ValidSettings(st)
  {
    && Calm(Lenient(users), s.reviews) && id in s.requests && s.requests == before[id := s.requests[id]]
    && s.requests[id].req == req && !s.requests[id].interrupted
    && (n == |ToReview(st, req, users)| ==> s.requests[id].stage == Done(Decide(st, req, Lenient(users))))
    && forall m | 0 <= m < n && m < |ToReview(st, req, users)| :: KeyOf(ToReview(st, req, users)[m]) in s.reviews.cache
  }

  /** Brings a new request past its first `n` reviews, all of them harmless. */
  lemma BringUpTo(st: Settings, users: Oracle, denied: Option<ReviewRequest>, start: real, actions: seq<Action>,
                  id: nat, req: Request, n: nat)
    returns (more: seq<Action>)
    requires ValidSettings(st) && n <= |ToReview(st, req, users)| && ToReview(st, req, users) != []
    requires Calm(Lenient(users), Run(st, Strict(users, denied), start, actions).reviews)
    requires id !in Run(st, Strict(users, denied), start, actions).requests
    requires forall m | 0 <= m < n ::
               Harmless(users, denied, Run(st, Strict(users, denied), start, actions).reviews, ToReview(st, req, users)[m])
    ensures BroughtUp(st, users, Run(st, Strict(users, denied), start, actions).requests,
                      Run(st, Strict(users, denied), start, actions + more), id, req, n)
    ensures forall scope: Scope | scope.requests(req) && Arrivals(scope, actions) :: Arrivals(scope, actions + more)
  {
    StrictIsLenientOnTokens(users, denied);
    hide *;
    var strict := Strict(users, denied);
    var asks := LenientForwards(st, req, users);
    ArriveCalmly(st, Lenient(users), strict, start, actions, id, req);
    var s, arrived := Run(st, strict, start, actions), actions + [Arrive(id, req)];
    var s1, reviews := Run(st, strict, start, arrived), ToReview(st, req, users);
    AllHarmless(st, users, denied, s1, id, asks, reviews, n);
    var drive := DriveSome(st, users, strict, start, arrived, id, |asks| + n);
    more := [Arrive(id, req)] + drive;
    OneArrives(actions, id, req, drive);
    assert arrived + drive == actions + more;
    Brought(st, users, s.requests, s1, Run(st, strict, start, actions + more), id, asks, n);
  }

  lemma OneArrives(actions: seq<Action>, id: nat, req: Request, drive: seq<Action>)
    requires NobodyArrives(drive)
    ensures forall scope: Scope | scope.requests(req) && Arrivals(scope, actions) ::
              Arrivals(scope, actions + ([Arrive(id, req)] + drive))
  {
  }

  lemma StrictKnowsUsers(scope: Scope, users: Oracle, denied: Option<ReviewRequest>)
    requires KnownUsers(scope, users)
    ensures KnownUsers(scope, Strict(users, denied))
  {
  }

  lemma StrictIsLenientOnTokens(users: Oracle, denied: Option<ReviewRequest>)
    ensures forall q: Question | q.OidcQuestion? :: Strict(users, denied)(q) == Lenient(users)(q)
  {
  }

  /** What driving a request through its questions comes to. */
  lemma Brought(st: Settings, users: Oracle, before: map<nat, Progress>, s: System, s': System, id: nat, asks: seq<Question>, n: nat)
    requires EndToEnd.WellFormed(st, s) && EndToEnd.WellFormed(st, s') && id in s.requests
    requires s.requests == before[id := Progress(s.requests[id].req, Start(st, s.requests[id].req), false)]
    requires Asked(st, s.requests[id].req, Start(st, s.requests[id].req), Lenient(users)) == asks + ToReview(st, s.requests[id].req, users)
    requires n <= |ToReview(st, s.requests[id].req, users)|
    requires DroveSome(st, Lenient(users), s, s', id, |asks| + n)
    ensures BroughtUp(st, users, before, s', id, s.requests[id].req, n)
  {
    hide Start, Decide, ToReview, Calm, KeyOf, Asked, Lenient, DroveSome;
    DroveKeeps(st, Lenient(users), s, s', id, |asks| + n);
    UpdatedTwice(before, id, s.requests[id], s'.requests[id]);
    if n == |ToReview(st, s.requests[id].req, users)| {
      BroughtToEnd(st, users, s, s', id, asks, n);
    }
    BroughtKeys(st, users, s, s', id, asks, n);
  }

  lemma DroveKeeps(st: Settings, lenient: Oracle, s: System, s': System, id: nat, n: nat)
    requires EndToEnd.WellFormed(st, s) && EndToEnd.WellFormed(st, s') && id in s.requests && DroveSome(st, lenient, s, s', id, n)
    ensures Calm(lenient, s'.reviews) && id in s'.requests && s'.requests == s.requests[id := s'.requests[id]]
    ensures s'.requests[id].req == s.requests[id].req && s'.requests[id].interrupted == s.requests[id].interrupted
  {
    hide Calm, Asked, Conclude, KeyOf;
  }

  lemma BroughtToEnd(st: Settings, users: Oracle, s: System, s': System, id: nat, asks: seq<Question>, n: nat)
    requires EndToEnd.WellFormed(st, s) && EndToEnd.WellFormed(st, s') && id in s.requests && id in s'.requests
    requires s.requests[id].stage == Start(st, s.requests[id].req) && n == |ToReview(st, s.requests[id].req, users)|
    requires Asked(st, s.requests[id].req, Start(st, s.requests[id].req), Lenient(users)) == asks + ToReview(st, s.requests[id].req, users)
    requires DroveSome(st, Lenient(users), s, s', id, |asks| + n)
    ensures s'.requests[id].stage == Done(Decide(st, s.requests[id].req, Lenient(users)))
  {
    hide Start, Decide, ToReview, Calm, KeyOf, Asked, Conclude, KeepsKeys;
    var req, stage := s.requests[id].req, s'.requests[id].stage;
    var asked := asks + ToReview(st, req, users);
    MachineDecides(st, req, Lenient(users));
    assert asked[|asks| + n..] == [];
    NothingToAsk(st, req, stage, Lenient(users));
  }

  lemma BroughtKeys(st: Settings, users: Oracle, s: System, s': System, id: nat, asks: seq<Question>, n: nat)
    requires EndToEnd.WellFormed(st, s) && EndToEnd.WellFormed(st, s') && id in s.requests
    requires s.requests[id].stage == Start(st, s.requests[id].req) && n <= |ToReview(st, s.requests[id].req, users)|
    requires Asked(st, s.requests[id].req, Start(st, s.requests[id].req), Lenient(users)) == asks + ToReview(st, s.requests[id].req, users)
    requires DroveSome(st, Lenient(users), s, s', id, |asks| + n)
    ensures forall m | 0 <= m < n :: KeyOf(ToReview(st, s.requests[id].req, users)[m]) in s'.reviews.cache
  {
    hide Start, ToReview, Calm, KeyOf, Asked, Conclude, KeepsKeys, PostOf;
    var req := s.requests[id].req;
    var reviews := ToReview(st, req, users);
    var asked := asks + reviews;
    forall m | 0 <= m < n
      ensures KeyOf(reviews[m]) in s'.reviews.cache
    {
      assert asked[|asks| + m] == reviews[m];
      ReviewsAreOfOneRequest(st, req, users, m, m);
    }
  }

  lemma NothingToAsk(st: Settings, req: Request, stage: Stage, oracle: Oracle)
    requires ValidSettings(st) && SoundStage(st, stage) && Asked(st, req, stage, oracle) == []
    ensures stage == Done(Conclude(st, req, stage, oracle))
  {
    hide RecordsOf, Authenticate, BeginAuthorization, Authorize;
  }

  /** Twins break the refinement: the second one's request is forwarded on the first one's verdict. */
  lemma TwinsBreakRefinement(st: Settings, scope: Scope, users: Oracle, r1: Request, i: nat, r2: Request, j: nat)
    returns (oracle: Oracle, actions: seq<Action>)
    requires ValidSettings(st) && KnownUsers(scope, users) && scope.requests(r1) && scope.requests(r2)
    requires Twins(ToReview(st, r1, users), i, ToReview(st, r2, users), j)
    ensures PostDetermines(oracle) && KnownUsers(scope, oracle) && Arrivals(scope, actions)
    ensures
      var s := Run(st, oracle, 0.0, actions);
      && 1 in s.requests && s.requests[1].req == r2 && !s.requests[1].interrupted
      && s.requests[1].stage.Done? && s.requests[1].stage.outcome.Forward? && !Decide(st, r2, oracle).Forward?
  {
    var xs, ys := ToReview(st, r1, users), ToReview(st, r2, users);
    assert i < |xs| && j < |ys|;
    assert Arrivals(scope, []);
    hide *;
    var denied := PostOf(ys[j]);
    oracle := Strict(users, denied);
    StrictKnowsUsers(scope, users, denied);
    StrictGoesByPosts(users, denied);
    StrictRefuses(st, r2, users, j);
    CalmAtFirst(st, Lenient(users), oracle, 0.0);
    FirstIsHarmless(st, users, r1, i, r2, j, Run(st, oracle, 0.0, []).reviews);
    var first := BringUpTo(st, users, denied, 0.0, [], 0, r1, i + 1);
    BroughtUpMeans(st, users, map[], Run(st, oracle, 0.0, [] + first), 0, r1, i + 1);
    SecondIsHarmless(st, users, r1, i, r2, j, Run(st, oracle, 0.0, [] + first).reviews);
    var before := Run(st, oracle, 0.0, [] + first).requests;
    var second := BringUpTo(st, users, denied, 0.0, [] + first, 1, r2, |ys|);
    actions := [] + first + second;
    BroughtUpMeans(st, users, before, Run(st, oracle, 0.0, actions), 1, r2, |ys|);
    var asks := LenientForwards(st, r2, users);
  }

  lemma BroughtUpMeans(st: Settings, users: Oracle, before: map<nat, Progress>, s: System, id: nat, req: Request, n: nat)
    requires ValidSettings(st) && BroughtUp(st, users, before, s, id, req, n) && 0 < n <= |ToReview(st, req, users)|
    ensures Calm(Lenient(users), s.reviews) && s.requests.Keys == before.Keys + {id}
    ensures s.requests[id].req == req && !s.requests[id].interrupted
    ensures n == |ToReview(st, req, users)| ==> s.requests[id].stage == Done(Decide(st, req, Lenient(users)))
    ensures KeyOf(ToReview(st, req, users)[n - 1]) in s.reviews.cache
  {
    hide Calm, ToReview, Decide, KeyOf;
  }

  /** On the way to the first twin nothing is denied. */
  lemma FirstIsHarmless(st: Settings, users: Oracle, r1: Request, i: nat, r2: Request, j: nat, reviews: Reviews)
    requires ValidSettings(st) && Twins(ToReview(st, r1, users), i, ToReview(st, r2, users), j)
    ensures forall m | 0 <= m < i + 1 :: Harmless(users, PostOf(ToReview(st, r2, users)[j]), reviews, ToReview(st, r1, users)[m])
  {
    hide ToReview, KeyOf, PostOf;
    forall m | 0 <= m < i + 1
      ensures ToReview(st, r1, users)[m].AccessQuestion?
    {
      ReviewsAreOfOneRequest(st, r1, users, m, m);
    }
  }

  /** Once the first twin's key is cached, only it would be denied, and it is not asked about. */
  lemma SecondIsHarmless(st: Settings, users: Oracle, r1: Request, i: nat, r2: Request, j: nat, reviews: Reviews)
    requires ValidSettings(st) && Twins(ToReview(st, r1, users), i, ToReview(st, r2, users), j)
    requires KeyOf(ToReview(st, r1, users)[i]) in reviews.cache
    ensures forall m | 0 <= m < |ToReview(st, r2, users)| ::
              Harmless(users, PostOf(ToReview(st, r2, users)[j]), reviews, ToReview(st, r2, users)[m])
  {
    hide ToReview, KeyOf, PostOf;
    forall m | 0 <= m < |ToReview(st, r2, users)|
      ensures Harmless(users, PostOf(ToReview(st, r2, users)[j]), reviews, ToReview(st, r2, users)[m])
    {
      ReviewsAreOfOneRequest(st, r2, users, m, j);
    }
  }

  /**
    The exact condition, for any settings and any scope of requests and users: every
    completed, uninterrupted request of every run gets the direct filter's decision, for
    every reviewer that goes by what is posted, if and only if no requests of the scope ask
    about twins.
   */
  lemma AlwaysRefinesIffNoTwins(st: Settings, scope: Scope)
    requires ValidSettings(st)
    ensures AlwaysRefines(st, scope) <==> NoTwins(st, scope)
  {
    hide ToReview, Twins, Decide, PostDetermines, KnownUsers, Arrivals, Run, RefinesDirectFilter;
    if NoTwins(st, scope) {
      forall oracle, start, actions, id |
        && PostDetermines(oracle) && KnownUsers(scope, oracle) && Arrivals(scope, actions)
        && id in Run(st, oracle, start, actions).requests
        ensures RefinesDirectFilter(st, oracle, Run(st, oracle, start, actions).requests[id])
      {
        WithoutTwinsAllRefine(st, scope, oracle, start, actions, id);
      }
    }
    forall users: Oracle, r1, r2, i: nat, j: nat |
      AlwaysRefines(st, scope) && KnownUsers(scope, users) && scope.requests(r1) && scope.requests(r2)
      ensures !Twins(ToReview(st, r1, users), i, ToReview(st, r2, users), j)
    {
      if Twins(ToReview(st, r1, users), i, ToReview(st, r2, users), j) {
        NotAlways(st, scope, users, r1, i, r2, j);
      }
    }
  }

  lemma NotAlways(st: Settings, scope: Scope, users: Oracle, r1: Request, i: nat, r2: Request, j: nat)
    requires ValidSettings(st) && KnownUsers(scope, users) && scope.requests(r1) && scope.requests(r2)
    requires Twins(ToReview(st, r1, users), i, ToReview(st, r2, users), j)
    ensures !AlwaysRefines(st, scope)
  {
    hide ToReview, Twins, Decide, PostDetermines, KnownUsers, Arrivals, Run;
    var oracle, actions := TwinsBreakRefinement(st, scope, users, r1, i, r2, j);
    assert !RefinesDirectFilter(st, oracle, Run(st, oracle, 0.0, actions).requests[1]);
  }

  // ---------------------------------------------------------------- twins within one request

  /** Of two reviews of one request under one key that are posted differently, the request holds twins. */
  lemma OneRequestTwins(st: Settings, req: Request, users: Oracle, a: nat, b: nat) returns (i: nat, j: nat)
    requires ValidSettings(st) && a < |ToReview(st, req, users)| && b < |ToReview(st, req, users)|
    requires KeyOf(ToReview(st, req, users)[a]) == KeyOf(ToReview(st, req, users)[b])
    requires PostOf(ToReview(st, req, users)[a]) != PostOf(ToReview(st, req, users)[b])
    ensures Twins(ToReview(st, req, users), i, ToReview(st, req, users), j)
  {
    hide ToReview, KeyOf, PostOf;
    var xs := ToReview(st, req, users);
    i := 0;
    while KeyOf(xs[i]) != KeyOf(xs[a])
      invariant i <= a && forall m | 0 <= m < i :: KeyOf(xs[m]) != KeyOf(xs[a])
      decreases a - i
    {
      i := i + 1;
    }
    j := if PostOf(xs[i]) != PostOf(xs[a]) then a else b;
    forall m | 0 <= m < i
      ensures PostOf(xs[m]) != PostOf(xs[j])
    {
      ReviewsAreOfOneRequest(st, req, users, m, j);
    }
  }

  /** No key field of a record that requests of the scope ask about holds a pipe. */
  ghost predicate PipeFreeScope(st: Settings, scope: Scope)
    requires ValidSettings(st)
  {
    forall users: Oracle, req, i |
      KnownUsers(scope, users) && scope.requests(req) && 0 <= i < |ToReview(st, req, users)| :: Proper(ToReview(st, req, users)[i])
  }

  /** Reviews that agree on the key fields agree on all that is posted. */
  predicate KeyFieldsTell(p: Question, q: Question)
  {
    p.AccessQuestion? && q.AccessQuestion? && KeyFields(p.attributes) == KeyFields(q.attributes) ==>
      SameUnkeyedFields(p.attributes, q.attributes)
  }

  lemma ProperPair(p: Question, q: Question)
    requires p.AccessQuestion? && q.AccessQuestion? && Proper(p)
    ensures KeyOf(p) == KeyOf(q) <==> KeyFields(p.attributes) == KeyFields(q.attributes)
    ensures KeyOf(p) == KeyOf(q) ==> (PostOf(p) == PostOf(q) <==> SameUnkeyedFields(p.attributes, q.attributes))
  {
    KeyIsFaithful(p.attributes, q.attributes);
    hide AccessKey, KeyFields, SameUnkeyedFields;
    if AccessKey(p.attributes) == AccessKey(q.attributes) {
      SameKeySameReview(p.attributes, q.attributes);
    }
  }

  lemma TwinsNeedDifference(st: Settings, scope: Scope, users: Oracle, r1: Request, i: nat, r2: Request, j: nat)
    requires ValidSettings(st) && PipeFreeScope(st, scope) && KnownUsers(scope, users) && scope.requests(r1)
    requires Twins(ToReview(st, r1, users), i, ToReview(st, r2, users), j)
    ensures !KeyFieldsTell(ToReview(st, r1, users)[i], ToReview(st, r2, users)[j])
  {
    ReviewsAreOfOneRequest(st, r1, users, i, i);
    ReviewsAreOfOneRequest(st, r2, users, j, j);
    hide ToReview, KeyOf, PostOf, KeyFields, SameUnkeyedFields, KnownUsers;
    ProperPair(ToReview(st, r1, users)[i], ToReview(st, r2, users)[j]);
  }

  /** A review posted like another one and of the same path has its key, unless it stands alone. */
  lemma SamePostSamePathSameKey(p: Question, q: Question)
    requires p.AccessQuestion? && q.AccessQuestion? && PostOf(p) == PostOf(q)
    requires p.attributes.path == q.attributes.path && p.attributes.resourceRequest
    ensures KeyOf(p) == KeyOf(q)
  {
  }

  lemma ReviewPath(st: Settings, req: Request, users: Oracle, i: nat)
    requires ValidSettings(st) && i < |ToReview(st, req, users)|
    ensures ToReview(st, req, users)[i].AccessQuestion? && ToReview(st, req, users)[i].attributes.path == req.path
    ensures |ToReview(st, req, users)| > 1 ==> ToReview(st, req, users)[i].attributes.resourceRequest
  {
    var user, records := BehindReviews(st, req, users);
    hide ToReview;
    NeedReviewFrom(st, records, ToReview(st, req, users)[i]);
    NeedReviewShorter(st, records);
    hide NeedReview;
  }

  lemma {:induction false} NeedReviewShorter(st: Settings, records: seq<Attributes>)
    ensures |NeedReview(st, records)| <= |records|
  {
    hide StaticAllows;
    if records != [] {
      NeedReviewShorter(st, records[1..]);
    }
  }

  lemma DifferenceGivesTwins(st: Settings, scope: Scope, users: Oracle, r1: Request, i: nat, r2: Request, j: nat)
    requires ValidSettings(st) && PipeFreeScope(st, scope) && KnownUsers(scope, users) && scope.requests(r1) && scope.requests(r2)
    requires i < |ToReview(st, r1, users)| && j < |ToReview(st, r2, users)|
    requires !KeyFieldsTell(ToReview(st, r1, users)[i], ToReview(st, r2, users)[j])
    ensures !NoTwins(st, scope)
  {
    ReviewPath(st, r1, users, i);
    ReviewPath(st, r2, users, j);
    hide ToReview, KeyOf, PostOf, SameUnkeyedFields, KnownUsers;
    var xs, ys := ToReview(st, r1, users), ToReview(st, r2, users);
    ProperPair(xs[i], ys[j]);
    SameFields(xs[i].attributes, ys[j].attributes);
    hide KeyFields;
    if m :| 0 <= m < i && PostOf(xs[m]) == PostOf(ys[j]) {
      ReviewPath(st, r1, users, m);
      SamePostSamePathSameKey(xs[m], ys[j]);
      var a, b := OneRequestTwins(st, r1, users, m, i);
      assert Twins(xs, a, ToReview(st, r1, users), b);
    } else {
      assert Twins(xs, i, ys, j);
    }
  }

  /**
    Where the records hold no pipes the condition is one on fields: every request of every
    run in the scope refines if and only if no two records that its requests ask about, for
    users identified alike, agree on the key fields and differ in groups, kind or, for
    resources, subresource or name.
   */
  lemma PipeFreeScopeRefinesIff(st: Settings, scope: Scope)
    requires ValidSettings(st) && PipeFreeScope(st, scope)
    ensures AlwaysRefines(st, scope) <==>
              forall users: Oracle, r1, r2, i, j |
                && KnownUsers(scope, users) && scope.requests(r1) && scope.requests(r2)
                && 0 <= i < |ToReview(st, r1, users)| && 0 <= j < |ToReview(st, r2, users)| ::
                KeyFieldsTell(ToReview(st, r1, users)[i], ToReview(st, r2, users)[j])
  {
    AlwaysRefinesIffNoTwins(st, scope);
    hide AlwaysRefines, ToReview, KeyFieldsTell, KnownUsers;
    forall users: Oracle, r1, r2, i: nat, j: nat |
      && KnownUsers(scope, users) && scope.requests(r1) && scope.requests(r2)
      && Twins(ToReview(st, r1, users), i, ToReview(st, r2, users), j)
      ensures i < |ToReview(st, r1, users)| && j < |ToReview(st, r2, users)|
      ensures !KeyFieldsTell(ToReview(st, r1, users)[i], ToReview(st, r2, users)[j])
    {
      TwinsNeedDifference(st, scope, users, r1, i, r2, j);
    }
    hide Twins, PipeFreeScope;
    forall users: Oracle, r1, r2, i: nat, j: nat |
      && KnownUsers(scope, users) && scope.requests(r1) && scope.requests(r2)
      && i < |ToReview(st, r1, users)| && j < |ToReview(st, r2, users)| && !KeyFieldsTell(ToReview(st, r1, users)[i], ToReview(st, r2, users)[j])
      ensures !NoTwins(st, scope)
    {
      DifferenceGivesTwins(st, scope, users, r1, i, r2, j);
    }
  }
}
