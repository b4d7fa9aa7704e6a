/**
  The Kubernetes client: one object that holds the token bucket and both review caches and
  updates them in place. Each method is proved against the pure models of its parts.
 */
module Kube {
  import opened Wrappers
  import opened Authorization
  import opened RateLimiter
  import opened ReviewCache
  import opened ReviewApi
  import opened Environment
  import RetryProtocol

  /** A post this client made, with the reply it got and when it got it. */
  datatype Sent = Sent(review: ReviewRequest, reply: Reply, at: real)

  function Replies(sent: seq<Sent>): (replies: seq<Reply>)
    ensures |replies| == |sent|
    ensures forall i | 0 <= i < |sent| :: replies[i] == sent[i].reply
  {
    seq(|sent|, i requires 0 <= i < |sent| => sent[i].reply)
  }

  /** Each post came the back-off time after the reply to the one before. */
  predicate Spaced(sent: seq<Sent>)
  {
    forall i | 0 < i < |sent| :: sent[i - 1].at + RetryProtocol.Backoff(i - 1) <= sent[i].at
  }

  lemma SpacedNone()
    ensures Spaced([]) && Replies([]) == []
  {
  }

  lemma SpacedAppend(sent: seq<Sent>, x: Sent)
    requires Spaced(sent) && (sent != [] ==> sent[|sent| - 1].at + RetryProtocol.Backoff(|sent| - 1) <= x.at)
    ensures Spaced(sent + [x])
  {
    hide RetryProtocol.Backoff;
  }

  /** The posts of one call: all carry the same review, back off in between, and end as the retry protocol says. */
  predicate OneCall(sent: seq<Sent>, review: ReviewRequest)
  {
    && RetryProtocol.FinalReplies(Replies(sent))
    && (forall i | 0 <= i < |sent| :: sent[i].review == review)
    && Spaced(sent)
  }

  lemma RepliesAppend(sent: seq<Sent>, x: Sent)
    ensures Replies(sent + [x]) == Replies(sent) + [x.reply]
  {
  }

  lemma CallEnds(sent: seq<Sent>, review: ReviewRequest)
    requires 1 <= |sent| <= RetryProtocol.ATTEMPTS && Spaced(sent) && forall i | 0 <= i < |sent| :: sent[i].review == review
    requires forall i | 0 <= i < |sent| - 1 :: Retryable(sent[i].reply)
    requires !Retryable(sent[|sent| - 1].reply) || |sent| == RetryProtocol.ATTEMPTS
    ensures OneCall(sent, review)
  {
    hide Spaced, Retryable;
    assert Replies(sent)[..|sent| - 1] == Replies(sent[..|sent| - 1]);
  }

  function LastReply(sent: seq<Sent>): Reply
    requires sent != []
  {
    sent[|sent| - 1].reply
  }

  /** The posts of a call, spelled out: one to three, each repeated only after status 429 or one of class 5. */
  lemma OneCallMeaning(sent: seq<Sent>, review: ReviewRequest)
    requires OneCall(sent, review)
    ensures 1 <= |sent| <= 3 && forall i | 0 <= i < |sent| :: sent[i].review == review
    ensures forall i | 0 <= i < |sent| - 1 ::
              sent[i].reply.Response? && (sent[i].reply.code == 429 || sent[i].reply.code / 100 == 5)
    ensures |sent| < 3 ==>
              var last := sent[|sent| - 1].reply;
              !(last.Response? && (last.code == 429 || last.code / 100 == 5))
    ensures |sent| >= 2 ==> sent[1].at >= sent[0].at + 0.05
    ensures |sent| == 3 ==> sent[2].at >= sent[1].at + 0.1
  {
    var replies := Replies(sent);
    forall i | 0 <= i < |sent| - 1
      ensures Retryable(sent[i].reply)
    {
      assert replies[..|replies| - 1][i] == sent[i].reply;
    }
  }

  lemma PostsCarryRecord(sent: seq<Sent>, n: nat, a: Attributes)
    requires n <= |sent| && OneCall(sent[n..], AccessReviewOf(a))
    ensures forall i | n <= i < |sent| :: CarriesRecord(sent[i].review, a)
  {
    PostCarriesRecord(AccessReviewOf(a), a);
    hide CarriesRecord, AccessReviewOf, RetryProtocol.FinalReplies, Spaced, Replies;
    assert forall i | n <= i < |sent| :: sent[i] == sent[n..][i - n];
  }

  function TokenAnswer(r: Result<Option<Identity>, ReviewError>): Answer
  {
    match r case Err(_) => Failed case Ok(user) => Identified(user)
  }

  function AccessAnswer(r: Result<bool, ReviewError>): Answer
  {
    match r case Err(_) => Failed case Ok(allowed) => Decided(allowed)
  }

  /** One call on a cache, as the actions of the cache's machine: the answer is given somewhere before `done`. */
  function CallActions<Q, V>(hit: bool, q: Q, given: real, answer: Option<V>, done: real): seq<ReviewCache.Action<Q, V>>
  {
    if hit then [ReviewCache.Ask(0, q)]
    else
      match answer
      case Some(v) =>
        [ReviewCache.Ask(0, q), ReviewCache.Tick(given), ReviewCache.Evaluate(0, v), ReviewCache.Tick(done), ReviewCache.Finish(0)]
      case None => [ReviewCache.Ask(0, q), ReviewCache.Fail(0)]
  }

  /** The cache at time `at`, with nobody under way. */
  function IdleCache<Q, K, V>(cache: map<K, Entry<V>>, at: real): ReviewCache.State<Q, K, V>
  {
    ReviewCache.State(TTL, at, cache, map[], [], [])
  }

  function CacheAfter<Q, K, V>(cache: map<K, Entry<V>>, keyOf: Q -> K, q: Q, at: real, given: real, answer: Option<V>, done: real)
    : map<K, Entry<V>>
  {
    var hit := Lookup(cache, keyOf(q), at, TTL).Some?;
    ReviewCache.Run(IdleCache<Q, K, V>(cache, at), CallActions(hit, q, given, answer, done), keyOf).cache
  }

  /** What those actions make of the cache. */
  lemma CallIsRun<Q, K, V>(cache: map<K, Entry<V>>, keyOf: Q -> K, q: Q, at: real, given: real, answer: Option<V>, done: real)
    requires at <= given <= done
    ensures CacheAfter(cache, keyOf, q, at, given, answer, done)
         == if Lookup(cache, keyOf(q), at, TTL).Some? || answer.None? then cache else cache[keyOf(q) := Entry(done, answer.value)]
  {
    var s := IdleCache<Q, K, V>(cache, at);
    var hit := Lookup(cache, keyOf(q), at, TTL).Some?;
    var actions := CallActions(hit, q, given, answer, done);
    assert ReviewCache.Run(s, actions[..0], keyOf) == s;
    if hit {
      ReviewCache.RunStep(s, actions, keyOf, 0);
      assert actions[..1] == actions;
    } else if answer.None? {
      ReviewCache.RunStep(s, actions, keyOf, 0);
      ReviewCache.RunStep(s, actions, keyOf, 1);
      assert actions[..2] == actions;
    } else {
      RunOfMiss(s, actions, keyOf);
      MissFillsCache(s, keyOf, q, given, answer.value, done);
    }
  }

  lemma RunOfMiss<Q, K, V>(s: ReviewCache.State<Q, K, V>, actions: seq<ReviewCache.Action<Q, V>>, keyOf: Q -> K)
    requires |actions| == 5
    ensures ReviewCache.Run(s, actions, keyOf)
         == ReviewCache.Step(ReviewCache.Step(ReviewCache.Step(ReviewCache.Step(ReviewCache.Step(s, actions[0], keyOf),
              actions[1], keyOf), actions[2], keyOf), actions[3], keyOf), actions[4], keyOf)
  {
    hide ReviewCache.Step;
    ReviewCache.RunStep(s, actions, keyOf, 0);
    ReviewCache.RunStep(s, actions, keyOf, 1);
    ReviewCache.RunStep(s, actions, keyOf, 2);
    ReviewCache.RunStep(s, actions, keyOf, 3);
    ReviewCache.RunStep(s, actions, keyOf, 4);
    assert actions[..0] == [] && actions[..5] == actions;
  }

  lemma MissFillsCache<Q, K, V>(s: ReviewCache.State<Q, K, V>, keyOf: Q -> K, q: Q, given: real, v: V, done: real)
    requires s.callers == map[] && Lookup(s.cache, keyOf(q), s.now, s.ttl).None? && s.now <= given <= done
    ensures
      var s1 := ReviewCache.Step(s, ReviewCache.Ask(0, q), keyOf);
      var s3 := ReviewCache.Step(ReviewCache.Step(s1, ReviewCache.Tick(given), keyOf), ReviewCache.Evaluate(0, v), keyOf);
      var s5 := ReviewCache.Step(ReviewCache.Step(s3, ReviewCache.Tick(done), keyOf), ReviewCache.Finish(0), keyOf);
      s5.cache == s.cache[keyOf(q) := Entry(done, v)]
  {
    ReviewCache.AskEffect(s, 0, q, keyOf);
  }

  function TokenKey(token: string): string
  {
    token
  }

  function ValueOf<V, E>(r: Result<V, E>): Option<V>
  {
    match r case Ok(v) => Some(v) case Err(_) => None
  }

  /** What the pipeline is told of a call: a verdict as it is, and a failure for any error. */
  lemma AnswersMeaning(t: Result<Option<Identity>, ReviewError>, a: Result<bool, ReviewError>)
    ensures forall user :: TokenAnswer(t) == Identified(user) <==> t == Ok(user)
    ensures forall allowed :: AccessAnswer(a) == Decided(allowed) <==> a == Ok(allowed)
    ensures (TokenAnswer(t) == Failed <==> t.Err?) && (AccessAnswer(a) == Failed <==> a.Err?)
  {
  }

  /** The verdict of an entry is used for less than thirty seconds. */
  lemma FreshMeansThirtySeconds<K, V>(cache: map<K, Entry<V>>, key: K, now: real, v: V)
    ensures Lookup(cache, key, now, TTL) == Some(v) <==> key in cache && cache[key].verdict == v && cache[key].at > now - 30.0
    ensures Lookup(cache, key, now, TTL) == None <==> (key in cache ==> cache[key].at <= now - 30.0)
  {
  }

  class KubernetesClient {
    const world: World
    const qps: real
    const burst: real
    const audiences: seq<string>
    var rateAt: real
    var rateTokens: real
    var tokenCache: map<string, Entry<Option<Identity>>>
    var authzCache: map<string, Entry<bool>>

    ghost const start: real
    /** Every attempt ever made on the bucket, and every post ever made. */
    ghost var history: seq<Attempt>
    ghost var sent: seq<Sent>
    /** The run of the retry protocol that this client has made, one caller for each call. */
    ghost var actions: seq<RetryProtocol.Action>
    ghost var calls: nat

    ghost function TheLimits(): Limits
    {
      Limits(qps, burst)
    }

    ghost predicate ValidBucket()
      reads this, world
    {
      && burst >= 1.0
      && Produced(TheLimits(), start, history)
      && Bucket(rateAt, rateTokens) == After(TheLimits(), start, history)
      && rateAt <= world.time
    }

    ghost function Machine(): RetryProtocol.System
      requires qps > 0.0
      reads this
    {
      RetryProtocol.Run(TheLimits(), start, actions)
    }

    /** The run leads to this bucket and this history, with as many posts, and earlier calls are over. */
    ghost predicate FollowsProtocol()
      requires qps > 0.0
      reads this, world
    {
      var s := Machine();
      && s.bucket == Bucket(rateAt, rateTokens) && s.history == history && |s.posts| == |sent| && s.now <= world.time
      && forall c | c in s.callers && c != calls :: c < calls && s.callers[c].Returned?
    }

    /** The call under way has these replies and is ready to try the bucket. */
    ghost predicate ReadyToTry(replies: seq<Reply>)
      requires qps > 0.0
      reads this, world
    {
      var s := Machine();
      && calls in s.callers && s.callers[calls].Acquiring? && s.callers[calls].wakeAt <= world.time
      && s.callers[calls].replies == replies
    }

    ghost predicate ReadyToPost(replies: seq<Reply>)
      requires qps > 0.0
      reads this
    {
      RetryProtocol.Holding(Machine(), calls) && Machine().callers[calls].replies == replies
    }

    /** The call under way may try again after that time. */
    ghost predicate SleepsFor(replies: seq<Reply>, duration: real)
      requires qps > 0.0
      reads this, world
    {
      var s := Machine();
      && calls in s.callers && s.callers[calls].Acquiring? && s.callers[calls].wakeAt <= world.time + duration
      && s.callers[calls].replies == replies
    }

    /** A call is under way with these replies, ready to try the bucket. */
    ghost predicate Underway(replies: seq<Reply>)
      reads this, world
    {
      ValidBucket() && (qps > 0.0 ==> Granted(history) == |sent| && FollowsProtocol() && ReadyToTry(replies))
    }

    /** A call has just had the last of these replies. */
    ghost predicate Answered(replies: seq<Reply>)
      requires replies != []
      reads this, world
    {
      && ValidBucket()
      && (qps > 0.0 ==>
            && Granted(history) == |sent| && FollowsProtocol() && calls in Machine().callers
            && Machine().callers[calls] == RetryProtocol.AfterReply(replies, world.time))
    }

    /** Between calls, every grant has been used for exactly one post, and the client has followed the protocol. */
    ghost predicate Valid()
      reads this, world
    {
      && ValidBucket()
      && (qps > 0.0 ==> Granted(history) == |sent| && FollowsProtocol() && calls !in Machine().callers)
    }

    constructor (world: World, qps: real, burst: nat, audiences: seq<string>)
      ensures Valid() && this.world == world && this.qps == qps && this.audiences == audiences
      ensures this.burst == (if burst < 1 then 1.0 else burst as real)
      ensures tokenCache == map[] && authzCache == map[] && history == [] && sent == []
    {
      this.world := world;
      this.qps := qps;
      this.audiences := audiences;
      this.burst := if burst < 1 then 1.0 else burst as real;
      this.rateAt := world.time;
      this.rateTokens := if burst < 1 then 1.0 else burst as real;
      this.tokenCache := map[];
      this.authzCache := map[];
      this.start := world.time;
      this.history := [];
      this.sent := [];
      this.actions := [];
      this.calls := 0;
    }

    /** All posts since construction are within burst plus rate times the time elapsed. */
    lemma SentIsBounded()
      requires Valid() && qps > 0.0
      ensures |sent| as real <= Budget(TheLimits(), world.time - start)
    {
      TotalIsBounded(TheLimits(), start, history, world.time);
    }

    /**
      One locked step on the bucket. It grants exactly when every window of the history
      stays within its bound, and otherwise tells how long to sleep.
     */
    method TryAcquire(now: real) returns (wait: Option<real>)
      requires ValidBucket() && qps > 0.0 && rateAt <= now <= world.time
      modifies this`rateAt, this`rateTokens, this`history
      ensures ValidBucket() && rateAt == now
      ensures history == old(history) + [Attempt(now, wait.None?)]
      ensures wait.None? <==> FitsEveryWindow(TheLimits(), old(history), now)
      ensures wait.None? <==> Grants(TheLimits(), Bucket(old(rateAt), old(rateTokens)), now)
      ensures Bucket(rateAt, rateTokens) == AfterAttempt(TheLimits(), Bucket(old(rateAt), old(rateTokens)), now)
      ensures wait.Some? ==> wait.value == Wait(TheLimits(), Bucket(old(rateAt), old(rateTokens)), now) > 0.0
      ensures wait.Some? ==> forall later | later >= now + wait.value :: FitsEveryWindow(TheLimits(), history, later)
    {
      ghost var before := Bucket(rateAt, rateTokens);
      hide Refill, Wait, FitsEveryWindow, Produced, After;
      AttemptMade(TheLimits(), start, history, now);
      RefillTokens(now);
      if rateTokens >= 1.0 {
        rateTokens := rateTokens - 1.0;
        wait := None;
      } else {
        wait := Some((1.0 - rateTokens) / qps);
        WaitIs(TheLimits(), before, now, wait.value);
      }
      assert Bucket(rateAt, rateTokens) == AfterAttempt(TheLimits(), before, now);
      assert wait.None? <==> Grants(TheLimits(), before, now);
      history := history + [Attempt(now, wait.None?)];
    }

    /** Adds the tokens earned since the last step, up to the burst. */
    method RefillTokens(now: real)
      modifies this`rateAt, this`rateTokens
      ensures rateAt == now && Bucket(rateAt, rateTokens) == Refill(TheLimits(), Bucket(old(rateAt), old(rateTokens)), now)
    {
      ghost var before := Bucket(rateAt, rateTokens);
      var refilled := rateTokens + Elapsed(rateAt, now) * qps;
      rateTokens := if refilled <= burst then refilled else burst;
      rateAt := now;
      assert refilled == before.tokens + Elapsed(before.at, now) * TheLimits().qps;
      assert Refill(TheLimits(), before, now).tokens == rateTokens;
    }

    /** One attempt on the bucket by the call under way, now. */
    method TryOnce(ghost replies: seq<Reply>) returns (wait: Option<real>)
      requires ValidBucket() && qps > 0.0 && FollowsProtocol() && ReadyToTry(replies)
      modifies this`rateAt, this`rateTokens, this`history, this`actions, world`time
      ensures ValidBucket() && world.time >= old(world.time) && FollowsProtocol()
      ensures |history| == |old(history)| + 1 && history[..|old(history)|] == old(history)
      ensures history[|old(history)|].granted <==> wait.None?
      ensures wait.None? ==> ReadyToPost(replies)
      ensures wait.Some? ==> SleepsFor(replies, wait.value)
      ensures wait.None? <==> FitsEveryWindow(TheLimits(), old(history), world.time)
      ensures wait.Some? ==> wait.value > 0.0
      ensures wait.Some? ==> forall later | later >= world.time + wait.value :: FitsEveryWindow(TheLimits(), history, later)
    {
      hide RetryProtocol.Run, Grants, Wait, AfterAttempt, FitsEveryWindow, Produced, After;
      var now := world.Now();
      RetryProtocol.RunTry(TheLimits(), start, actions, calls, now);
      wait := TryAcquire(now);
      actions := actions + [RetryProtocol.Tick(now), RetryProtocol.TryAcquire(calls)];
    }

    /** Loops until granted. With no competitor the second attempt always succeeds. */
    method Acquire(ghost replies: seq<Reply>)
      requires ValidBucket() && (qps > 0.0 ==> FollowsProtocol() && ReadyToTry(replies))
      modifies this`rateAt, this`rateTokens, this`history, this`actions, world`time
      ensures ValidBucket() && world.time >= old(world.time)
      ensures qps <= 0.0 ==> history == old(history)
      ensures qps > 0.0 ==> Granted(history) == Granted(old(history)) + 1 && FollowsProtocol() && ReadyToPost(replies)
      ensures old(history) <= history && |history| <= |old(history)| + 2
    {
      if qps <= 0.0 {
        return;
      }
      hide RetryProtocol.Run, FitsEveryWindow, Produced, After;
      ghost var tries := 0;
      while true
        invariant tries <= 1 && ValidBucket() && world.time >= old(world.time)
        invariant old(history) <= history && |history| == |old(history)| + tries
        invariant Granted(history) == Granted(old(history))
        invariant FollowsProtocol() && ReadyToTry(replies)
        invariant tries == 1 ==> forall later | later >= world.time :: FitsEveryWindow(TheLimits(), history, later)
        decreases 1 - tries
      {
        var wait := TryOnce(replies);
        if wait.None? {
          return;
        }
        world.Sleep(wait.value);
        tries := tries + 1;
      }
    }

    /** A new call enters the protocol. */
    ghost method BeginCall()
      requires Valid()
      modifies this`actions
      ensures Underway([])
    {
      if qps > 0.0 {
        RetryProtocol.RunMore(TheLimits(), start, actions, RetryProtocol.Call(calls));
        hide RetryProtocol.Run;
        actions := actions + [RetryProtocol.Call(calls)];
      }
    }

    /** The reply to a post is recorded; the call goes on to back off, or is over. */
    ghost method RecordPost(review: ReviewRequest, r: Reply, replies: seq<Reply>)
      requires ValidBucket() && (qps > 0.0 ==> Granted(history) == |sent| + 1 && FollowsProtocol() && ReadyToPost(replies))
      modifies this`actions, this`sent
      ensures sent == old(sent) + [Sent(review, r, world.time)] && Answered(replies + [r])
    {
      if qps > 0.0 {
        RetryProtocol.RunSend(TheLimits(), start, actions, calls, r, world.time);
        hide RetryProtocol.Run, RetryProtocol.AfterReply;
        actions := actions + [RetryProtocol.Tick(world.time), RetryProtocol.Send(calls, r)];
      }
      sent := sent + [Sent(review, r, world.time)];
    }

    /** One post of the call under way, on its own grant. */
    method PostOnce(review: ReviewRequest, ghost replies: seq<Reply>) returns (r: Reply)
      requires Underway(replies)
      modifies this`rateAt, this`rateTokens, this`history, this`sent, this`actions, world`time
      ensures Answered(replies + [r]) && world.time >= old(world.time)
      ensures sent == old(sent) + [Sent(review, r, world.time)]
    {
      hide Produced, After, RetryProtocol.Run, RetryProtocol.AfterReply;
      Acquire(replies);
      r := world.Post(review);
      RecordPost(review, r, replies);
    }

    /** Sleeps between two posts of a call. */
    method BackOff(attempt: nat, ghost replies: seq<Reply>)
      requires |replies| == attempt + 1 < RetryProtocol.ATTEMPTS && Retryable(replies[attempt]) && Answered(replies)
      modifies world`time
      ensures Underway(replies) && world.time >= old(world.time) + RetryProtocol.Backoff(attempt)
      ensures world.time >= old(world.time)
    {
      hide Produced, After, RetryProtocol.Run;
      world.Sleep(RetryProtocol.Backoff(attempt));
    }

    /** A call that needs no further post is over. */
    ghost method EndCall(replies: seq<Reply>)
      requires replies != [] && Answered(replies)
      requires !Retryable(replies[|replies| - 1]) || |replies| == RetryProtocol.ATTEMPTS
      modifies this`calls
      ensures Valid()
    {
      hide Produced, After, RetryProtocol.Run, RetryProtocol.Backoff, Retryable;
      calls := calls + 1;
    }

    /** Sends a review, at most three times; each post follows a grant of its own. */
    method RequestWithRetry(review: ReviewRequest) returns (r: Reply)
      requires Valid()
      modifies this`rateAt, this`rateTokens, this`history, this`sent, this`actions, this`calls, world`time
      ensures Valid() && world.time >= old(world.time)
      ensures old(sent) <= sent && OneCall(sent[|old(sent)|..], review)
      ensures r == LastReply(sent[|old(sent)|..])
    {
      hide Spaced, OneCall, Retryable, RetryProtocol.Backoff, Valid, Underway, Answered, Replies;
      r := ConnectionFailed;
      SpacedNone();
      ghost var mine: seq<Sent> := [];
      BeginCall();
      for attempt := 0 to 3
        invariant attempt <= 2 && Underway(Replies(mine)) && world.time >= old(world.time)
        invariant sent == old(sent) + mine && |mine| == attempt
        invariant forall i | 0 <= i < |mine| :: mine[i].review == review && Retryable(mine[i].reply)
        invariant Spaced(mine) && (attempt > 0 ==> mine[attempt - 1].at + RetryProtocol.Backoff(attempt - 1) <= world.time)
      {
        r := PostOnce(review, Replies(mine));
        SpacedAppend(mine, Sent(review, r, world.time));
        RepliesAppend(mine, Sent(review, r, world.time));
        mine := mine + [Sent(review, r, world.time)];
        assert sent[|old(sent)|..] == mine;
        if !Retryable(r) || attempt == 2 {
          CallEnds(mine, review);
          EndCall(Replies(mine));
          return;
        }
        BackOff(attempt, Replies(mine));
      }
      assert false;
    }

    /**
      Authenticates a bearer token: a fresh cached verdict is returned as it is; otherwise
      the reviewer is asked, and a verdict (never a failure) is cached.
     */
    method AuthenticateToken(token: string) returns (r: Result<Option<Identity>, ReviewError>, ghost at: real)
      requires Valid()
      modifies this`rateAt, this`rateTokens, this`history, this`sent, this`actions, this`calls, this`tokenCache, world
      ensures Valid() && old(world.time) <= at <= world.time && old(sent) <= sent
      ensures world.exchanges == old(world.exchanges) + [Exchange(TokenQuestion(token), TokenAnswer(r))]
      ensures
        match Lookup(old(tokenCache), token, at, TTL)
        case Some(v) => r == Ok(v) && tokenCache == old(tokenCache) && sent == old(sent)
        case None =>
          var mine := sent[|old(sent)|..];
          && OneCall(mine, TokenReview(token, audiences)) && r == TokenVerdict(LastReply(mine))
          && tokenCache == (if r.Ok? then old(tokenCache)[token := Entry(world.time, r.value)] else old(tokenCache))
      ensures forall given | at <= given <= world.time ::
                tokenCache == CacheAfter(old(tokenCache), TokenKey, token, at, given, ValueOf(r), world.time)
    {
      hide CacheAfter;
      var now := world.Now();
      at := now;
      var cached := Lookup(tokenCache, token, now, TTL);
      if cached.Some? {
        r := Ok(cached.value);
      } else {
        var reply := RequestWithRetry(TokenReview(token, audiences));
        r := TokenVerdict(reply);
        if r.Ok? {
          now := world.Now();
          tokenCache := tokenCache[token := Entry(now, r.value)];
        }
      }
      world.exchanges := world.exchanges + [Exchange(TokenQuestion(token), TokenAnswer(r))];
      forall given | at <= given <= world.time
        ensures tokenCache == CacheAfter(old(tokenCache), TokenKey, token, at, given, ValueOf(r), world.time)
      {
        CallIsRun(old(tokenCache), TokenKey, token, at, given, ValueOf(r), world.time);
      }
    }

    /** Authorizes one attribute record, in the same way, under the seven-field key. */
    method Authorize(attributes: Attributes) returns (r: Result<bool, ReviewError>, ghost at: real)
      requires Valid()
      modifies this`rateAt, this`rateTokens, this`history, this`sent, this`actions, this`calls, this`authzCache, world
      ensures Valid() && old(world.time) <= at <= world.time && old(sent) <= sent
      ensures world.exchanges == old(world.exchanges) + [Exchange(AccessQuestion(attributes), AccessAnswer(r))]
      ensures
        match Lookup(old(authzCache), AccessKey(attributes), at, TTL)
        case Some(v) => r == Ok(v) && authzCache == old(authzCache) && sent == old(sent)
        case None =>
          var mine := sent[|old(sent)|..];
          && OneCall(mine, AccessReviewOf(attributes)) && r == AccessVerdict(LastReply(mine))
          && authzCache == (if r.Ok? then old(authzCache)[AccessKey(attributes) := Entry(world.time, r.value)] else old(authzCache))
      ensures forall i | |old(sent)| <= i < |sent| :: CarriesRecord(sent[i].review, attributes)
      ensures forall given | at <= given <= world.time ::
                authzCache == CacheAfter(old(authzCache), AccessKey, attributes, at, given, ValueOf(r), world.time)
    {
      hide CacheAfter, AccessKey, AccessReviewOf, CarriesRecord, OneCall;
      var key := AccessKey(attributes);
      var now := world.Now();
      at := now;
      var cached := Lookup(authzCache, key, now, TTL);
      if cached.Some? {
        r := Ok(cached.value);
      } else {
        var reply := RequestWithRetry(AccessReviewOf(attributes));
        r := AccessVerdict(reply);
        PostsCarryRecord(sent, |old(sent)|, attributes);
        if r.Ok? {
          now := world.Now();
          authzCache := authzCache[key := Entry(now, r.value)];
        }
      }
      world.exchanges := world.exchanges + [Exchange(AccessQuestion(attributes), AccessAnswer(r))];
      forall given | at <= given <= world.time
        ensures authzCache == CacheAfter(old(authzCache), AccessKey, attributes, at, given, ValueOf(r), world.time)
      {
        CallIsRun(old(authzCache), AccessKey, attributes, at, given, ValueOf(r), world.time);
      }
    }
  }
}
