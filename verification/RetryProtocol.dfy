/**
  Calls to the review API by any number of concurrent callers: each post waits for its own
  grant of the shared token bucket, and a call retries at most twice. One state machine
  holds the bucket, every caller and the log of posts.
 */
module RetryProtocol {
  import opened RateLimiter
  import opened ReviewApi

  const ATTEMPTS: nat := 3

  /** Seconds slept before retrying after attempt number `attempt`. */
  function Backoff(attempt: nat): real
  {
    0.05 * (attempt as real + 1.0)
  }

  /** The attempts of a call and the two back-offs between them. */
  lemma Backoffs()
    ensures ATTEMPTS == 3 && Backoff(0) == 0.05 && Backoff(1) == 0.1
  {
  }

  /**
    A call under way; `replies` are those of the posts it has made so far, and `grant` is the
    position in the history of the attempt that was granted to it.
   */
  datatype Phase =
    | Acquiring(wakeAt: real, replies: seq<Reply>)
    | Permitted(grant: nat, replies: seq<Reply>)
    | Returned(replies: seq<Reply>)

  datatype Post = Post(caller: nat, grant: nat, at: real)

  /** `tries` names the caller of each attempt in the history. */
  datatype System = System(
    now: real, bucket: Bucket, history: seq<Attempt>, tries: seq<nat>, posts: seq<Post>, callers: map<nat, Phase>)

  datatype Action =
    | Tick(to: real)
    | Call(caller: nat)
    | TryAcquire(caller: nat)
    | Send(caller: nat, reply: Reply)

  function Initial(l: Limits, start: real): System
  {
    System(start, Full(l, start), [], [], [], map[])
  }

  /** Where a call goes with the reply of its latest post. */
  function AfterReply(replies: seq<Reply>, now: real): Phase
    requires replies != []
  {
    if Retryable(replies[|replies| - 1]) && |replies| < ATTEMPTS
    then Acquiring(now + Backoff(|replies| - 1), replies)
    else Returned(replies)
  }

  /** Caller `c` is ready to try the bucket: it is not asleep. */
  predicate Ready(s: System, c: nat)
  {
    c in s.callers && s.callers[c].Acquiring? && s.callers[c].wakeAt <= s.now
  }

  predicate Holding(s: System, c: nat)
  {
    c in s.callers && s.callers[c].Permitted?
  }

  /** One atomic step; an action that is not possible changes nothing. */
  function Step(l: Limits, s: System, a: Action): System
    requires l.qps > 0.0
  {
    match a
    case Tick(to) => if to < s.now then s else s.(now := to)
    case Call(c) => if c in s.callers then s else s.(callers := s.callers[c := Acquiring(s.now, [])])
    case TryAcquire(c) =>
      if Ready(s, c) then
        var granted := Grants(l, s.bucket, s.now);
        var phase := if granted then Permitted(|s.history|, s.callers[c].replies)
                     else s.callers[c].(wakeAt := s.now + Wait(l, s.bucket, s.now));
        s.(bucket := AfterAttempt(l, s.bucket, s.now), history := s.history + [Attempt(s.now, granted)],
           tries := s.tries + [c], callers := s.callers[c := phase])
      else s
    case Send(c, reply) =>
      if Holding(s, c) then
        var p := s.callers[c];
        s.(posts := s.posts + [Post(c, p.grant, s.now)], callers := s.callers[c := AfterReply(p.replies + [reply], s.now)])
      else s
  }

  function Run(l: Limits, start: real, actions: seq<Action>): System
    requires l.qps > 0.0
  {
    if actions == [] then Initial(l, start)
    else Step(l, Run(l, start, actions[..|actions| - 1]), actions[|actions| - 1])
  }

  lemma RunMore(l: Limits, start: real, actions: seq<Action>, a: Action)
    requires l.qps > 0.0
    ensures Run(l, start, actions + [a]) == Step(l, Run(l, start, actions), a)
  {
    hide Step;
    assert (actions + [a])[..|actions|] == actions;
  }

  /** What an attempt at time `now` does to a run. */
  lemma RunTry(l: Limits, start: real, actions: seq<Action>, c: nat, now: real)
    requires l.qps > 0.0
    requires
      var s := Run(l, start, actions);
      s.now <= now && c in s.callers && s.callers[c].Acquiring? && s.callers[c].wakeAt <= now
    ensures
      var s, s' := Run(l, start, actions), Run(l, start, actions + [Tick(now), TryAcquire(c)]);
      var granted, replies := Grants(l, s.bucket, now), s.callers[c].replies;
      && s'.now == now && s'.bucket == AfterAttempt(l, s.bucket, now) && s'.history == s.history + [Attempt(now, granted)]
      && s'.posts == s.posts
      && s'.callers == s.callers[c := if granted then Permitted(|s.history|, replies) else Acquiring(now + Wait(l, s.bucket, now), replies)]
  {
    RunMore(l, start, actions, Tick(now));
    RunMore(l, start, actions + [Tick(now)], TryAcquire(c));
    assert actions + [Tick(now)] + [TryAcquire(c)] == actions + [Tick(now), TryAcquire(c)];
    hide Run, Grants, AfterAttempt, Wait;
  }

  /** What a post answered at time `now` does to a run. */
  lemma RunSend(l: Limits, start: real, actions: seq<Action>, c: nat, reply: Reply, now: real)
    requires l.qps > 0.0
    requires
      var s := Run(l, start, actions);
      s.now <= now && Holding(s, c)
    ensures
      var s, s' := Run(l, start, actions), Run(l, start, actions + [Tick(now), Send(c, reply)]);
      && s'.now == now && s'.bucket == s.bucket && s'.history == s.history && |s'.posts| == |s.posts| + 1
      && s'.callers == s.callers[c := AfterReply(s.callers[c].replies + [reply], now)]
  {
    RunMore(l, start, actions, Tick(now));
    RunMore(l, start, actions + [Tick(now)], Send(c, reply));
    assert actions + [Tick(now)] + [Send(c, reply)] == actions + [Tick(now), Send(c, reply)];
    hide Run, AfterReply;
  }

  // ---------------------------------------------------------------- the invariant

  predicate AllRetryable(replies: seq<Reply>)
  {
    forall i | 0 <= i < |replies| :: Retryable(replies[i])
  }

  /** What a finished call must look like: every reply but the last called for a retry. */
  predicate FinalReplies(replies: seq<Reply>)
  {
    && 1 <= |replies| <= ATTEMPTS
    && AllRetryable(replies[..|replies| - 1])
    && (!Retryable(replies[|replies| - 1]) || |replies| == ATTEMPTS)
  }

  predicate SoundPhase(p: Phase)
  {
    match p
    case Acquiring(_, replies) => |replies| < ATTEMPTS && AllRetryable(replies)
    case Permitted(_, replies) => |replies| < ATTEMPTS && AllRetryable(replies)
    case Returned(replies) => FinalReplies(replies)
  }

  function PostsOf(posts: seq<Post>, c: nat): nat
  {
    if posts == [] then 0 else PostsOf(posts[..|posts| - 1], c) + if posts[|posts| - 1].caller == c then 1 else 0
  }

  /** Callers holding a grant they have not used yet. */
  function Holders(callers: map<nat, Phase>): set<nat>
  {
    set c | c in callers && callers[c].Permitted?
  }

  /** The bucket is the one its history leads to. */
  ghost predicate SoundBucket(l: Limits, start: real, s: System)
  {
    && Produced(l, start, s.history) && s.bucket == After(l, start, s.history)
    && start <= s.bucket.at <= s.now && |s.tries| == |s.history|
  }

  /** Attempt `g` was caller `c`'s own, was granted, and came no later than `at`. */
  predicate GrantedTo(s: System, g: nat, c: nat, at: real)
  {
    g < |s.history| && g < |s.tries| && s.history[g].granted && s.tries[g] == c && s.history[g].at <= at
  }

  /** Each post follows a grant of its own caller, which no other post and no waiting caller uses. */
  ghost predicate SoundGrants(s: System)
  {
    && (forall i | 0 <= i < |s.posts| :: s.posts[i].at <= s.now && GrantedTo(s, s.posts[i].grant, s.posts[i].caller, s.posts[i].at))
    && (forall i, j | 0 <= i < j < |s.posts| :: s.posts[i].grant != s.posts[j].grant)
    && (forall c | Holding(s, c) :: GrantedTo(s, s.callers[c].grant, c, s.now))
    && (forall c, i | Holding(s, c) && 0 <= i < |s.posts| :: s.posts[i].grant != s.callers[c].grant)
  }

  /** Each caller has made as many posts as it has replies, and stands where they lead. */
  ghost predicate SoundCallers(s: System)
  {
    && (forall c | c in s.callers :: SoundPhase(s.callers[c]) && PostsOf(s.posts, c) == |s.callers[c].replies|)
    && (forall c | c !in s.callers :: PostsOf(s.posts, c) == 0)
  }

  ghost predicate Invariant(l: Limits, start: real, s: System)
  {
    && SoundBucket(l, start, s) && SoundGrants(s) && SoundCallers(s)
    && Granted(s.history) == |s.posts| + |Holders(s.callers)|
  }

  lemma StepKeepsInvariant(l: Limits, start: real, s: System, a: Action)
    requires ValidLimits(l) && Invariant(l, start, s)
    ensures Invariant(l, start, Step(l, s, a))
  {
    hide Produced, After, Granted, PostsOf, FinalReplies, Grants, Wait, AfterAttempt, AfterReply;
    match a
    case Tick(_) =>
    case Call(c) =>
      assert Holders(Step(l, s, a).callers) == Holders(s.callers);
    case TryAcquire(c) =>
      AcquireKeepsInvariant(l, start, s, c);
    case Send(c, reply) =>
      SendKeepsInvariant(l, start, s, c, reply);
  }

  lemma AcquireKeepsBucket(l: Limits, start: real, s: System, c: nat)
    requires ValidLimits(l) && SoundBucket(l, start, s) && Ready(s, c)
    ensures SoundBucket(l, start, Step(l, s, TryAcquire(c)))
    ensures
      var s' := Step(l, s, TryAcquire(c));
      s'.posts == s.posts
      && Granted(s'.history) == Granted(s.history) + if Grants(l, s.bucket, s.now) then 1 else 0
  {
    AttemptMade(l, start, s.history, s.now);
    hide Grants, Wait, AfterAttempt, FitsEveryWindow, Produced, After;
    var h := s.history + [Attempt(s.now, Grants(l, s.bucket, s.now))];
    assert h[..|s.history|] == s.history;
  }

  lemma AcquireKeepsInvariant(l: Limits, start: real, s: System, c: nat)
    requires ValidLimits(l) && Invariant(l, start, s)
    ensures Invariant(l, start, Step(l, s, TryAcquire(c)))
  {
    if Ready(s, c) {
      AcquireKeepsCallers(l, s, c);
      AcquireKeepsGrants(l, s, c);
      AcquireKeepsBucket(l, start, s, c);
      hide Step, Holders, Granted, Grants, SoundBucket, SoundCallers, SoundGrants;
    }
  }

  lemma AcquireKeepsCallers(l: Limits, s: System, c: nat)
    requires l.qps > 0.0 && SoundCallers(s) && Ready(s, c)
    ensures
      var s' := Step(l, s, TryAcquire(c));
      && SoundCallers(s')
      && |Holders(s'.callers)| == |Holders(s.callers)| + if Grants(l, s.bucket, s.now) then 1 else 0
  {
    hide Grants, Wait, AfterAttempt, PostsOf, AllRetryable;
    var s' := Step(l, s, TryAcquire(c));
    assert c !in Holders(s.callers);
    assert Holders(s'.callers) == if Grants(l, s.bucket, s.now) then Holders(s.callers) + {c} else Holders(s.callers);
  }

  lemma AcquireKeepsGrants(l: Limits, s: System, c: nat)
    requires l.qps > 0.0 && SoundGrants(s) && |s.tries| == |s.history| && Ready(s, c)
    ensures SoundGrants(Step(l, s, TryAcquire(c)))
  {
    hide Grants, Wait, AfterAttempt;
    var s' := Step(l, s, TryAcquire(c));
    forall g: nat, d: nat, at: real | GrantedTo(s, g, d, at)
      ensures GrantedTo(s', g, d, at) && g < |s.history|
    {
    }
    hide GrantedTo;
    assert Holding(s', c) ==> GrantedTo(s', |s.history|, c, s.now) by {
      assert s'.history[|s.history|].at == s.now && s'.tries[|s.history|] == c;
    }
    forall d | Holding(s', d) && d != c
      ensures Holding(s, d) && s'.callers[d] == s.callers[d]
    {
    }
  }

  lemma SendKeepsInvariant(l: Limits, start: real, s: System, c: nat, reply: Reply)
    requires ValidLimits(l) && Invariant(l, start, s)
    ensures Invariant(l, start, Step(l, s, Send(c, reply)))
  {
    if Holding(s, c) {
      var s' := Step(l, s, Send(c, reply));
      hide Produced, After, Granted;
      assert c in Holders(s.callers);
      assert !AfterReply(s.callers[c].replies + [reply], s.now).Permitted?;
      assert Holders(s'.callers) == Holders(s.callers) - {c};
      SendKeepsGrants(l, s, c, reply);
      SendKeepsCallers(l, s, c, reply);
      hide SoundGrants, SoundCallers;
    }
  }

  lemma SendKeepsGrants(l: Limits, s: System, c: nat, reply: Reply)
    requires l.qps > 0.0 && SoundGrants(s) && Holding(s, c)
    ensures SoundGrants(Step(l, s, Send(c, reply)))
  {
    var s' := Step(l, s, Send(c, reply));
    forall g: nat, d: nat, at: real
      ensures GrantedTo(s', g, d, at) == GrantedTo(s, g, d, at)
    {
    }
    forall d | Holding(s', d)
      ensures d != c && Holding(s, d) && s'.callers[d] == s.callers[d] && s.callers[d].grant != s.callers[c].grant
    {
      assert GrantedTo(s, s.callers[c].grant, c, s.now);
      assert d != c ==> GrantedTo(s, s.callers[d].grant, d, s.now);
    }
    hide GrantedTo;
  }

  lemma SendKeepsCallers(l: Limits, s: System, c: nat, reply: Reply)
    requires l.qps > 0.0 && SoundCallers(s) && Holding(s, c)
    ensures SoundCallers(Step(l, s, Send(c, reply)))
  {
    var s' := Step(l, s, Send(c, reply));
    var p := s.callers[c];
    assert s'.posts[..|s.posts|] == s.posts;
    ReplyKeepsSound(p, reply, s.now);
    hide AfterReply, SoundPhase;
    assert |AfterReply(p.replies + [reply], s.now).replies| == |p.replies| + 1;
    forall d
      ensures PostsOf(s'.posts, d) == PostsOf(s.posts, d) + if d == c then 1 else 0
    {
    }
  }

  lemma ReplyKeepsSound(p: Phase, reply: Reply, now: real)
    requires p.Permitted? && SoundPhase(p)
    ensures
      var next := AfterReply(p.replies + [reply], now);
      SoundPhase(next) && !next.Permitted? && next.replies == p.replies + [reply]
  {
    assert (p.replies + [reply])[..|p.replies|] == p.replies;
  }

  lemma {:induction false} EveryRunKeepsInvariant(l: Limits, start: real, actions: seq<Action>)
    requires ValidLimits(l)
    ensures Invariant(l, start, Run(l, start, actions))
  {
    if actions == [] {
      assert Holders(map[]) == {};
    } else {
      EveryRunKeepsInvariant(l, start, actions[..|actions| - 1]);
      StepKeepsInvariant(l, start, Run(l, start, actions[..|actions| - 1]), actions[|actions| - 1]);
    }
  }

  // ---------------------------------------------------------------- callers wait as they are told

  /** When a refused attempt may be repeated. */
  function RetryAt(l: Limits, start: real, h: seq<Attempt>, i: nat): real
    requires l.qps > 0.0 && i < |h|
  {
    h[i].at + Wait(l, After(l, start, h[..i]), h[i].at)
  }

  /** When the caller of a post may try the bucket for its next one. */
  function RepostAt(posts: seq<Post>, i: nat): real
    requires i < |posts|
  {
    posts[i].at + Backoff(PostsOf(posts[..i], posts[i].caller))
  }

  /** Caller `c` will not try the bucket before time `t`: it sleeps, or that time has come, or it is through. */
  predicate WaitsUntil(s: System, c: nat, t: real)
  {
    c in s.callers &&
    match s.callers[c]
    case Acquiring(wakeAt, _) => t <= wakeAt || t <= s.now
    case Permitted(g, _) => g < |s.history| && t <= s.history[g].at
    case Returned(_) => true
  }

  /** Refused callers wait as long as they were told. */
  ghost predicate RefusedWait(l: Limits, start: real, s: System)
    requires l.qps > 0.0 && |s.tries| == |s.history|
  {
    forall i | 0 <= i < |s.history| && !s.history[i].granted :: WaitsUntil(s, s.tries[i], RetryAt(l, start, s.history, i))
  }

  /** Callers back off after a post. */
  ghost predicate PostersWait(s: System)
  {
    forall i | 0 <= i < |s.posts| :: WaitsUntil(s, s.posts[i].caller, RepostAt(s.posts, i))
  }

  ghost predicate RetriedInTime(l: Limits, start: real, h: seq<Attempt>, tries: seq<nat>)
    requires l.qps > 0.0 && |tries| == |h|
  {
    forall i, k | 0 <= i < k < |h| && tries[i] == tries[k] && !h[i].granted :: RetryAt(l, start, h, i) <= h[k].at
  }

  ghost predicate RepostedInTime(h: seq<Attempt>, posts: seq<Post>)
  {
    forall i, k | 0 <= i < k < |posts| && posts[i].caller == posts[k].caller && posts[k].grant < |h| ::
      RepostAt(posts, i) <= h[posts[k].grant].at
  }

  /** Callers wait after a refusal and after a post, and have always done so. */
  ghost predicate Patient(l: Limits, start: real, s: System)
    requires l.qps > 0.0 && |s.tries| == |s.history|
  {
    RefusedWait(l, start, s) && PostersWait(s) && RetriedInTime(l, start, s.history, s.tries) && RepostedInTime(s.history, s.posts)
  }

  /** No step makes a caller forget a waiting time. */
  lemma StepKeepsWaiting(l: Limits, s: System, a: Action, c: nat, t: real)
    requires l.qps > 0.0 && SoundGrants(s) && WaitsUntil(s, c, t)
    ensures WaitsUntil(Step(l, s, a), c, t)
  {
    hide Grants, Wait, AfterAttempt;
    if Holding(s, c) {
      assert GrantedTo(s, s.callers[c].grant, c, s.now);
    }
  }

  lemma RefusedKeepWaiting(l: Limits, start: real, s: System, a: Action)
    requires l.qps > 0.0 && |s.tries| == |s.history| && SoundGrants(s) && RefusedWait(l, start, s)
    requires Step(l, s, a).history == s.history && Step(l, s, a).tries == s.tries
    ensures RefusedWait(l, start, Step(l, s, a))
  {
    hide RetryAt, SoundGrants, Step;
    forall i | 0 <= i < |s.history| && !s.history[i].granted
      ensures WaitsUntil(Step(l, s, a), s.tries[i], RetryAt(l, start, s.history, i))
    {
      StepKeepsWaiting(l, s, a, s.tries[i], RetryAt(l, start, s.history, i));
    }
    hide WaitsUntil;
  }

  lemma PostersKeepWaiting(l: Limits, s: System, a: Action)
    requires l.qps > 0.0 && SoundGrants(s) && PostersWait(s) && Step(l, s, a).posts == s.posts
    ensures PostersWait(Step(l, s, a))
  {
    hide RepostAt, SoundGrants, Step;
    forall i | 0 <= i < |s.posts|
      ensures WaitsUntil(Step(l, s, a), s.posts[i].caller, RepostAt(s.posts, i))
    {
      StepKeepsWaiting(l, s, a, s.posts[i].caller, RepostAt(s.posts, i));
    }
    hide WaitsUntil;
  }

  lemma HistoryKeepsTimes(l: Limits, start: real, h: seq<Attempt>, a: Attempt)
    requires l.qps > 0.0
    ensures forall i | 0 <= i < |h| :: RetryAt(l, start, h + [a], i) == RetryAt(l, start, h, i)
  {
    hide Wait, After;
    forall i | 0 <= i < |h|
      ensures (h + [a])[..i] == h[..i]
    {
    }
  }

  lemma PostsKeepTimes(posts: seq<Post>, x: Post)
    ensures forall i | 0 <= i < |posts| :: RepostAt(posts + [x], i) == RepostAt(posts, i)
  {
    hide PostsOf, Backoff;
    forall i | 0 <= i < |posts|
      ensures (posts + [x])[..i] == posts[..i]
    {
    }
  }

  /** A caller that was refused and tries again does so in time, and waits anew if it is refused again. */
  lemma AcquireIsInTime(l: Limits, start: real, s: System, c: nat)
    requires l.qps > 0.0 && SoundBucket(l, start, s) && SoundGrants(s) && Ready(s, c)
    requires RefusedWait(l, start, s) && RetriedInTime(l, start, s.history, s.tries)
    ensures
      var s' := Step(l, s, TryAcquire(c));
      |s'.tries| == |s'.history| && RefusedWait(l, start, s') && RetriedInTime(l, start, s'.history, s'.tries)
  {
    var s', n := Step(l, s, TryAcquire(c)), |s.history|;
    HistoryKeepsTimes(l, start, s.history, s'.history[n]);
    assert s'.history[..n] == s.history;
    assert !s'.history[n].granted ==> WaitsUntil(s', c, RetryAt(l, start, s'.history, n));
    hide RetryAt, Grants, Wait, AfterAttempt, SoundBucket;
    forall i | 0 <= i < n && !s.history[i].granted
      ensures WaitsUntil(s', s'.tries[i], RetryAt(l, start, s'.history, i))
    {
      StepKeepsWaiting(l, s, TryAcquire(c), s.tries[i], RetryAt(l, start, s.history, i));
    }
    forall i | 0 <= i < n && s.tries[i] == c && !s.history[i].granted
      ensures RetryAt(l, start, s.history, i) <= s'.history[n].at
    {
      assert WaitsUntil(s, c, RetryAt(l, start, s.history, i));
    }
    hide WaitsUntil, SoundGrants;
  }

  lemma AcquireKeepsPosts(l: Limits, s: System, c: nat)
    requires l.qps > 0.0 && SoundGrants(s) && RepostedInTime(s.history, s.posts) && Ready(s, c)
    ensures RepostedInTime(Step(l, s, TryAcquire(c)).history, s.posts)
  {
    hide RepostAt, Grants, Wait, AfterAttempt;
    forall k | 0 <= k < |s.posts|
      ensures s.posts[k].grant < |s.history|
    {
      assert GrantedTo(s, s.posts[k].grant, s.posts[k].caller, s.posts[k].at);
    }
    hide SoundGrants;
  }

  /** A later post of a call used a grant from after the back-off, and the caller backs off anew. */
  lemma SendIsInTime(l: Limits, s: System, c: nat, reply: Reply)
    requires l.qps > 0.0 && SoundGrants(s) && SoundCallers(s) && Holding(s, c)
    requires PostersWait(s) && RepostedInTime(s.history, s.posts)
    ensures
      var s' := Step(l, s, Send(c, reply));
      PostersWait(s') && RepostedInTime(s'.history, s'.posts)
  {
    PostersStillWait(l, s, c, reply);
    RepostIsInTime(l, s, c, reply);
    hide PostersWait, RepostedInTime, SoundGrants, SoundCallers;
  }

  lemma PostersStillWait(l: Limits, s: System, c: nat, reply: Reply)
    requires l.qps > 0.0 && SoundGrants(s) && SoundCallers(s) && Holding(s, c) && PostersWait(s)
    ensures PostersWait(Step(l, s, Send(c, reply)))
  {
    var s', n := Step(l, s, Send(c, reply)), |s.posts|;
    PostsKeepTimes(s.posts, s'.posts[n]);
    BacksOff(l, s, c, reply);
    hide RepostAt, AfterReply, SoundCallers, SoundGrants, WaitsUntil;
    forall i | 0 <= i < n
      ensures WaitsUntil(s', s.posts[i].caller, RepostAt(s.posts, i))
    {
      StepKeepsWaiting(l, s, Send(c, reply), s.posts[i].caller, RepostAt(s.posts, i));
    }
  }

  lemma RepostIsInTime(l: Limits, s: System, c: nat, reply: Reply)
    requires l.qps > 0.0 && Holding(s, c) && PostersWait(s) && RepostedInTime(s.history, s.posts)
    ensures RepostedInTime(Step(l, s, Send(c, reply)).history, Step(l, s, Send(c, reply)).posts)
  {
    var s', n := Step(l, s, Send(c, reply)), |s.posts|;
    PostsKeepTimes(s.posts, s'.posts[n]);
    hide RepostAt, AfterReply;
    forall i | 0 <= i < n && s.posts[i].caller == c
      ensures RepostAt(s.posts, i) <= s.history[s.callers[c].grant].at
    {
      assert WaitsUntil(s, c, RepostAt(s.posts, i));
    }
    hide WaitsUntil;
  }

  lemma BacksOff(l: Limits, s: System, c: nat, reply: Reply)
    requires l.qps > 0.0 && SoundCallers(s) && Holding(s, c)
    ensures
      var s' := Step(l, s, Send(c, reply));
      WaitsUntil(s', c, RepostAt(s'.posts, |s.posts|))
  {
    var s' := Step(l, s, Send(c, reply));
    assert s'.posts[..|s.posts|] == s.posts;
    hide PostsOf, Backoff;
  }

  lemma StepKeepsPatience(l: Limits, start: real, s: System, a: Action)
    requires ValidLimits(l) && Invariant(l, start, s) && Patient(l, start, s)
    ensures |Step(l, s, a).tries| == |Step(l, s, a).history| && Patient(l, start, Step(l, s, a))
  {
    hide RefusedWait, PostersWait, RetriedInTime, RepostedInTime;
    if a.TryAcquire? && Ready(s, a.caller) {
      AcquireIsInTime(l, start, s, a.caller);
      AcquireKeepsPosts(l, s, a.caller);
      PostersKeepWaiting(l, s, a);
    } else {
      RefusedKeepWaiting(l, start, s, a);
      if a.Send? && Holding(s, a.caller) {
        SendIsInTime(l, s, a.caller, a.reply);
      } else {
        PostersKeepWaiting(l, s, a);
      }
    }
  }

  lemma {:induction false} EveryRunIsPatient(l: Limits, start: real, actions: seq<Action>)
    requires ValidLimits(l)
    ensures
      var s := Run(l, start, actions);
      |s.tries| == |s.history| && Patient(l, start, s)
  {
    if actions != [] {
      var before := actions[..|actions| - 1];
      EveryRunIsPatient(l, start, before);
      EveryRunKeepsInvariant(l, start, before);
      hide Patient, Invariant;
      StepKeepsPatience(l, start, Run(l, start, before), actions[|actions| - 1]);
    }
  }

  // ---------------------------------------------------------------- what every run guarantees

  /**
    In every run, at every moment: each post used a grant that the bucket gave to its own
    caller before it and that no other post used, so all callers together have posted no
    more often than burst plus rate times the time since construction.
   */
  lemma PostsAreRateLimited(l: Limits, start: real, actions: seq<Action>)
    requires ValidLimits(l)
    ensures
      var s := Run(l, start, actions);
      && |s.posts| <= Granted(s.history)
      && |s.posts| as real <= Budget(l, s.now - start)
      && (forall i | 0 <= i < |s.posts| :: GrantedTo(s, s.posts[i].grant, s.posts[i].caller, s.posts[i].at))
      && (forall i, j | 0 <= i < j < |s.posts| :: s.posts[i].grant != s.posts[j].grant)
  {
    var s := Run(l, start, actions);
    EveryRunKeepsInvariant(l, start, actions);
    hide Run, Budget, GrantedTo;
    TotalIsBounded(l, start, s.history, s.now);
  }

  /** In every run, a call's posts are apart: the grant of a later one comes no sooner than the back-off after an earlier one. */
  lemma RetriesBackOff(l: Limits, start: real, actions: seq<Action>, i: nat, k: nat)
    requires ValidLimits(l)
    requires
      var s := Run(l, start, actions);
      i < k < |s.posts| && s.posts[i].caller == s.posts[k].caller
    ensures
      var s := Run(l, start, actions);
      && s.posts[k].grant < |s.history|
      && s.history[s.posts[k].grant].at >= s.posts[i].at + Backoff(PostsOf(s.posts[..i], s.posts[i].caller))
  {
    EveryRunKeepsInvariant(l, start, actions);
    EveryRunIsPatient(l, start, actions);
    var s := Run(l, start, actions);
    hide Run, SoundBucket, SoundCallers, RefusedWait, PostersWait, RetriedInTime;
    assert GrantedTo(s, s.posts[k].grant, s.posts[k].caller, s.posts[k].at);
    assert RepostAt(s.posts, i) <= s.history[s.posts[k].grant].at;
  }

  /**
    In every run, a call posts at most three times, and one that returned does so with the
    first reply that does not call for a retry, or with the third.
   */
  lemma CallsReturnTheRightReply(l: Limits, start: real, actions: seq<Action>, c: nat)
    requires ValidLimits(l) && c in Run(l, start, actions).callers
    ensures
      var s := Run(l, start, actions);
      && PostsOf(s.posts, c) == |s.callers[c].replies| <= ATTEMPTS
      && (s.callers[c].Returned? ==> FinalReplies(s.callers[c].replies))
      && (!s.callers[c].Returned? ==> |s.callers[c].replies| < ATTEMPTS && AllRetryable(s.callers[c].replies))
  {
    EveryRunKeepsInvariant(l, start, actions);
    hide Run;
  }

  /** What a call returns is determined by the replies its posts would get. */
  lemma FinalRepliesAreUnique(a: seq<Reply>, b: seq<Reply>)
    requires FinalReplies(a) && FinalReplies(b)
    requires forall i | 0 <= i < |a| && i < |b| :: a[i] == b[i]
    ensures a == b
  {
    RetryableBeforeLast(a);
    RetryableBeforeLast(b);
  }

  lemma RetryableBeforeLast(a: seq<Reply>)
    requires FinalReplies(a)
    ensures forall i | 0 <= i < |a| - 1 :: Retryable(a[i])
  {
    assert forall i | 0 <= i < |a| - 1 :: a[..|a| - 1][i] == a[i];
  }

  /**
    Progress: when a caller that was refused tries again, it is granted, unless some caller
    was granted in between. That it comes back late enough is part of the protocol.
   */
  lemma RefusedCallerProgresses(l: Limits, start: real, actions: seq<Action>, i: nat, k: nat)
    requires ValidLimits(l)
    requires
      var s := Run(l, start, actions);
      i < k < |s.history| && k < |s.tries| && s.tries[i] == s.tries[k] && !s.history[i].granted
    ensures exists m | i < m <= k :: Run(l, start, actions).history[m].granted
  {
    EveryRunKeepsInvariant(l, start, actions);
    EveryRunIsPatient(l, start, actions);
    var s := Run(l, start, actions);
    hide Run, SoundGrants, SoundCallers, RefusedWait, PostersWait, RepostedInTime;
    assert RetryAt(l, start, s.history, i) <= s.history[k].at;
    hide Patient;
    SomeoneIsGranted(l, start, s.history, i, k);
  }
}
