/**
  The caches under interleaving: those of the two reviews and that of the key set. A caller
  looks the key up in one locked step; on a miss, or when it insists on a new answer, it
  asks the reviewer without holding the lock, and inserts and returns in another locked
  step. Any number of callers may miss, ask and insert in any order.
 */
module ReviewCache {
  import opened Wrappers

  /** Seconds for which a review's entry is used. */
  const TTL: real := 30.0

  datatype Entry<V> = Entry(at: real, verdict: V)

  /** The verdict of an entry that is young enough. */
  function Lookup<K, V>(cache: map<K, Entry<V>>, key: K, now: real, ttl: real): Option<V>
  {
    if key in cache && now - cache[key].at < ttl then Some(cache[key].verdict) else None
  }

  /** A caller that missed: its request is under way, or was evaluated by the reviewer. */
  datatype Phase<Q, V> = InFlight(question: Q) | Evaluated(question: Q, verdict: V, at: real)

  datatype Review<Q, V> = Review(question: Q, verdict: V, at: real)

  datatype Origin<V> = FromCache(entry: Entry<V>) | FromReview(at: real)

  datatype Served<Q, V> = Served(caller: nat, question: Q, verdict: V, at: real, origin: Origin<V>)

  /** The lifetime of entries, the shared clock and cache, the callers under way, and the record of what happened. */
  datatype State<Q, K, V> = State(
    ttl: real, now: real, cache: map<K, Entry<V>>, callers: map<nat, Phase<Q, V>>,
    reviews: seq<Review<Q, V>>, served: seq<Served<Q, V>>)

  datatype Action<Q, V> =
    | Tick(to: real)
    | Ask(caller: nat, question: Q)
    | Refresh(caller: nat, question: Q)
    | Evaluate(caller: nat, verdict: V)
    | Fail(caller: nat)
    | Finish(caller: nat)

  function Initial<Q, K, V>(ttl: real, start: real): State<Q, K, V>
  {
    State(ttl, start, map[], map[], [], [])
  }

  /** One atomic step; an action that is not possible changes nothing. */
  function Step<Q, K, V>(s: State<Q, K, V>, a: Action<Q, V>, keyOf: Q -> K): State<Q, K, V>
  {
    match a
    case Tick(to) => if to < s.now then s else s.(now := to)
    case Ask(c, q) =>
      if c in s.callers then s
      else
        (match Lookup(s.cache, keyOf(q), s.now, s.ttl)
         case Some(v) => s.(served := s.served + [Served(c, q, v, s.now, FromCache(s.cache[keyOf(q)]))])
         case None => s.(callers := s.callers[c := InFlight(q)]))
    case Refresh(c, q) => if c in s.callers then s else s.(callers := s.callers[c := InFlight(q)])
    case Evaluate(c, v) =>
      if c in s.callers && s.callers[c].InFlight? then
        var q := s.callers[c].question;
        s.(callers := s.callers[c := Evaluated(q, v, s.now)], reviews := s.reviews + [Review(q, v, s.now)])
      else s
    case Fail(c) => s.(callers := s.callers - {c})
    case Finish(c) =>
      if c in s.callers && s.callers[c].Evaluated? then
        var p := s.callers[c];
        s.(callers := s.callers - {c},
           cache := s.cache[keyOf(p.question) := Entry(s.now, p.verdict)],
           served := s.served + [Served(c, p.question, p.verdict, s.now, FromReview(p.at))])
      else s
  }

  function Run<Q, K, V>(s: State<Q, K, V>, actions: seq<Action<Q, V>>, keyOf: Q -> K): State<Q, K, V>
    decreases |actions|
  {
    if actions == [] then s
    else Step(Run(s, actions[..|actions| - 1], keyOf), actions[|actions| - 1], keyOf)
  }

  /** What asking does: a hit is served at once, a miss goes to the reviewer. */
  lemma AskEffect<Q, K, V>(s: State<Q, K, V>, c: nat, q: Q, keyOf: Q -> K)
    requires c !in s.callers
    ensures
      var s' := Step(s, Ask(c, q), keyOf);
      && s'.cache == s.cache && s'.reviews == s.reviews
      && match Lookup(s.cache, keyOf(q), s.now, s.ttl)
         case Some(v) =>
           && s'.callers == s.callers && keyOf(q) in s.cache && v == s.cache[keyOf(q)].verdict
           && s'.served == s.served + [Served(c, q, v, s.now, FromCache(s.cache[keyOf(q)]))]
         case None => s'.callers == s.callers[c := InFlight(q)]
  {
  }

  /** What failing does: the caller is gone and the cache is as it was. */
  lemma FailEffect<Q, K, V>(s: State<Q, K, V>, c: nat, keyOf: Q -> K)
    ensures Step(s, Fail(c), keyOf).cache == s.cache && Step(s, Fail(c), keyOf).callers == s.callers - {c}
    ensures Step(s, Fail(c), keyOf).reviews == s.reviews
  {
  }

  /** What finishing does: the verdict is inserted under the key, dated now. */
  lemma FinishEffect<Q, K, V>(s: State<Q, K, V>, c: nat, keyOf: Q -> K)
    requires c in s.callers && s.callers[c].Evaluated?
    ensures
      var s' := Step(s, Finish(c), keyOf);
      && s'.callers == s.callers - {c} && s'.reviews == s.reviews
      && s'.cache == s.cache[keyOf(s.callers[c].question) := Entry(s.now, s.callers[c].verdict)]
  {
  }

  lemma RunStep<Q, K, V>(s: State<Q, K, V>, actions: seq<Action<Q, V>>, keyOf: Q -> K, n: nat)
    requires n < |actions|
    ensures Run(s, actions[..n + 1], keyOf) == Step(Run(s, actions[..n], keyOf), actions[n], keyOf)
  {
    assert actions[..n + 1][..n] == actions[..n];
  }

  // ---------------------------------------------------------------- soundness

  /** The reviewer gave this verdict for a question of that key, no later than `upTo`. */
  ghost predicate WasGiven<Q, K, V>(reviews: seq<Review<Q, V>>, keyOf: Q -> K, key: K, verdict: V, upTo: real)
  {
    exists i | 0 <= i < |reviews| ::
      keyOf(reviews[i].question) == key && reviews[i].verdict == verdict && reviews[i].at <= upTo
  }

  ghost predicate SoundEntry<Q, K, V>(reviews: seq<Review<Q, V>>, keyOf: Q -> K, key: K, e: Entry<V>, now: real)
  {
    e.at <= now && WasGiven(reviews, keyOf, key, e.verdict, e.at)
  }

  ghost predicate SoundServed<Q, K, V>(reviews: seq<Review<Q, V>>, keyOf: Q -> K, ttl: real, x: Served<Q, V>)
  {
    match x.origin
    case FromCache(e) =>
      && x.verdict == e.verdict && x.at - ttl < e.at <= x.at
      && WasGiven(reviews, keyOf, keyOf(x.question), e.verdict, e.at)
    case FromReview(t) => t <= x.at && Review(x.question, x.verdict, t) in reviews
  }

  ghost predicate Sound<Q, K, V>(s: State<Q, K, V>, keyOf: Q -> K)
  {
    && (forall k | k in s.cache :: SoundEntry(s.reviews, keyOf, k, s.cache[k], s.now))
    && (forall c | c in s.callers && s.callers[c].Evaluated? ::
          && s.callers[c].at <= s.now
          && Review(s.callers[c].question, s.callers[c].verdict, s.callers[c].at) in s.reviews)
    && (forall i | 0 <= i < |s.served| :: SoundServed(s.reviews, keyOf, s.ttl, s.served[i]))
  }

  lemma MoreReviews<Q, K, V>(reviews: seq<Review<Q, V>>, more: seq<Review<Q, V>>, keyOf: Q -> K)
    ensures forall k, e: Entry<V>, now: real :: SoundEntry(reviews, keyOf, k, e, now) ==> SoundEntry(reviews + more, keyOf, k, e, now)
    ensures forall ttl, x: Served<Q, V> :: SoundServed(reviews, keyOf, ttl, x) ==> SoundServed(reviews + more, keyOf, ttl, x)
  {
    forall k: K, v: V, upTo: real | WasGiven(reviews, keyOf, k, v, upTo)
      ensures WasGiven(reviews + more, keyOf, k, v, upTo)
    {
      var i :| 0 <= i < |reviews| && keyOf(reviews[i].question) == k && reviews[i].verdict == v && reviews[i].at <= upTo;
      assert (reviews + more)[i] == reviews[i];
    }
    forall ttl, x: Served<Q, V> | SoundServed(reviews, keyOf, ttl, x)
      ensures SoundServed(reviews + more, keyOf, ttl, x)
    {
      match x.origin
      case FromCache(e) =>
        assert WasGiven(reviews, keyOf, keyOf(x.question), e.verdict, e.at);
        assert WasGiven(reviews + more, keyOf, keyOf(x.question), e.verdict, e.at);
      case FromReview(t) =>
        assert Review(x.question, x.verdict, t) in reviews + more;
    }
  }

  lemma StepKeepsSound<Q, K, V>(s: State<Q, K, V>, a: Action<Q, V>, keyOf: Q -> K)
    requires Sound(s, keyOf)
    ensures Sound(Step(s, a, keyOf), keyOf)
  {
    match a
    case Evaluate(c, v) =>
      if c in s.callers && s.callers[c].InFlight? {
        MoreReviews(s.reviews, [Review(s.callers[c].question, v, s.now)], keyOf);
        hide SoundEntry, SoundServed;
      }
    case Finish(c) =>
      if c in s.callers && s.callers[c].Evaluated? {
        var p := s.callers[c];
        var i :| 0 <= i < |s.reviews| && s.reviews[i] == Review(p.question, p.verdict, p.at);
        assert WasGiven(s.reviews, keyOf, keyOf(p.question), p.verdict, s.now);
      }
    case Ask(c, q) =>
      if c !in s.callers && keyOf(q) in s.cache {
        assert SoundEntry(s.reviews, keyOf, keyOf(q), s.cache[keyOf(q)], s.now);
      }
    case _ =>
  }

  /**
    Soundness in every reachable state: each entry holds a verdict given for its key no
    later than its timestamp, and each verdict served from the cache came from an entry
    younger than the lifetime of entries.
   */
  lemma {:induction false} EveryRunIsSound<Q, K, V>(ttl: real, start: real, actions: seq<Action<Q, V>>, keyOf: Q -> K)
    ensures Sound(Run(Initial<Q, K, V>(ttl, start), actions, keyOf), keyOf)
    decreases |actions|
  {
    if actions != [] {
      EveryRunIsSound<Q, K, V>(ttl, start, actions[..|actions| - 1], keyOf);
      StepKeepsSound(Run(Initial<Q, K, V>(ttl, start), actions[..|actions| - 1], keyOf), actions[|actions| - 1], keyOf);
    }
  }

  /** Entries are never dropped and their timestamps never decrease; failed calls change nothing. */
  lemma TimestampsNeverDecrease<Q, K, V>(s: State<Q, K, V>, a: Action<Q, V>, keyOf: Q -> K)
    requires Sound(s, keyOf)
    ensures forall k | k in s.cache :: k in Step(s, a, keyOf).cache && s.cache[k].at <= Step(s, a, keyOf).cache[k].at
    ensures !a.Finish? ==> Step(s, a, keyOf).cache == s.cache
    ensures s.now <= Step(s, a, keyOf).now
  {
    forall k | k in s.cache
      ensures s.cache[k].at <= s.now
    {
      assert SoundEntry(s.reviews, keyOf, k, s.cache[k], s.now);
    }
  }

  // ---------------------------------------------------------------- right answers

  /** Only questions from `ok` are asked. */
  ghost predicate AsksOnly<Q(!new), V(!new)>(actions: seq<Action<Q, V>>, ok: Q -> bool)
  {
    forall n | 0 <= n < |actions| && (actions[n].Ask? || actions[n].Refresh?) :: ok(actions[n].question)
  }

  /** The reviewer always gives the verdict `oracle` has for the question asked. */
  ghost predicate Honest<Q(!new), K, V(!new)>(init: State<Q, K, V>, actions: seq<Action<Q, V>>, keyOf: Q -> K, oracle: Q -> V)
  {
    forall n | 0 <= n < |actions| && actions[n].Evaluate? ::
      var s := Run(init, actions[..n], keyOf);
      actions[n].caller in s.callers && s.callers[actions[n].caller].InFlight? ==>
        actions[n].verdict == oracle(s.callers[actions[n].caller].question)
  }

  ghost predicate AllServedRight<Q(!new), K, V(!new)>(s: State<Q, K, V>, oracle: Q -> V)
  {
    forall i | 0 <= i < |s.served| :: s.served[i].verdict == oracle(s.served[i].question)
  }

  ghost predicate AlwaysRight<Q(!new), K, V(!new)>(ttl: real, keyOf: Q -> K, oracle: Q -> V, ok: Q -> bool)
  {
    forall start: real, actions: seq<Action<Q, V>> |
      AsksOnly(actions, ok) && Honest(Initial<Q, K, V>(ttl, start), actions, keyOf, oracle) ::
      AllServedRight(Run(Initial<Q, K, V>(ttl, start), actions, keyOf), oracle)
  }

  ghost predicate KeyDecides<Q(!new), K, V(!new)>(keyOf: Q -> K, oracle: Q -> V, ok: Q -> bool)
  {
    forall p, q | ok(p) && ok(q) && keyOf(p) == keyOf(q) :: oracle(p) == oracle(q)
  }

  /**
    When the cache is exactly right: every verdict served in every run with an honest
    reviewer is the one for the question itself, if and only if the key decides the verdict
    among the questions that may be asked.
   */
  lemma RightIffKeyDecides<Q(!new), K, V(!new)>(ttl: real, keyOf: Q -> K, oracle: Q -> V, ok: Q -> bool)
    requires ttl > 0.0
    ensures AlwaysRight(ttl, keyOf, oracle, ok) <==> KeyDecides(keyOf, oracle, ok)
  {
    if KeyDecides(keyOf, oracle, ok) {
      forall start: real, actions: seq<Action<Q, V>> |
        AsksOnly(actions, ok) && Honest(Initial<Q, K, V>(ttl, start), actions, keyOf, oracle)
        ensures AllServedRight(Run(Initial<Q, K, V>(ttl, start), actions, keyOf), oracle)
      {
        HonestRunsAreRight(Initial<Q, K, V>(ttl, start), actions, keyOf, oracle, ok);
      }
    }
    forall p, q | AlwaysRight(ttl, keyOf, oracle, ok) && ok(p) && ok(q) && keyOf(p) == keyOf(q)
      ensures oracle(p) == oracle(q)
    {
      SecondCallerGetsFirstVerdict(ttl, keyOf, oracle, ok, p, q);
    }
  }

  ghost predicate RightState<Q(!new), K, V(!new)>(s: State<Q, K, V>, keyOf: Q -> K, oracle: Q -> V, ok: Q -> bool)
  {
    && AllServedRight(s, oracle)
    && (forall c | c in s.callers :: ok(s.callers[c].question))
    && (forall c | c in s.callers && s.callers[c].Evaluated? :: s.callers[c].verdict == oracle(s.callers[c].question))
    && (forall q | ok(q) && keyOf(q) in s.cache :: s.cache[keyOf(q)].verdict == oracle(q))
  }

  lemma {:induction false} HonestRunsAreRight<Q(!new), K, V(!new)>(init: State<Q, K, V>, actions: seq<Action<Q, V>>,
                                                                   keyOf: Q -> K, oracle: Q -> V, ok: Q -> bool)
    requires init.cache == map[] && init.callers == map[] && init.served == []
    requires KeyDecides(keyOf, oracle, ok) && AsksOnly(actions, ok) && Honest(init, actions, keyOf, oracle)
    ensures RightState(Run(init, actions, keyOf), keyOf, oracle, ok)
    decreases |actions|
  {
    if actions != [] {
      var last := |actions| - 1;
      var before := actions[..last];
      assert forall n | 0 <= n < last :: before[..n] == actions[..n];
      HonestRunsAreRight(init, before, keyOf, oracle, ok);
      var s, a := Run(init, before, keyOf), actions[last];
      if a.Finish? && a.caller in s.callers && s.callers[a.caller].Evaluated? {
        assert s.callers[a.caller].verdict == oracle(s.callers[a.caller].question);
      }
    }
  }

  lemma SecondCallerGetsFirstVerdict<Q(!new), K, V(!new)>(ttl: real, keyOf: Q -> K, oracle: Q -> V, ok: Q -> bool, p: Q, q: Q)
    requires ttl > 0.0 && ok(p) && ok(q)
    requires AlwaysRight(ttl, keyOf, oracle, ok) && keyOf(p) == keyOf(q)
    ensures oracle(p) == oracle(q)
  {
    var actions := [Ask(0, p), Evaluate(0, oracle(p)), Finish(0), Ask(1, q)];
    var s0 := Initial<Q, K, V>(ttl, 0.0);
    var s4 := Run(s0, actions, keyOf);
    hide Run, Step;
    HonestRunOfFour(ttl, keyOf, oracle, p, q);
    assert AsksOnly(actions, ok) && Honest(s0, actions, keyOf, oracle);
    assert AllServedRight(s4, oracle);
    assert s4.served[1].verdict == oracle(p) && s4.served[1].question == q;
  }

  /** One caller asks, is answered and inserts; a second one asks under the same key. */
  lemma HonestRunOfFour<Q(!new), K, V(!new)>(ttl: real, keyOf: Q -> K, oracle: Q -> V, p: Q, q: Q)
    requires ttl > 0.0 && keyOf(p) == keyOf(q)
    ensures
      var actions := [Ask(0, p), Evaluate(0, oracle(p)), Finish(0), Ask(1, q)];
      var s0 := Initial<Q, K, V>(ttl, 0.0);
      var s4 := Run(s0, actions, keyOf);
      && Honest(s0, actions, keyOf, oracle)
      && |s4.served| == 2 && s4.served[1].verdict == oracle(p) && s4.served[1].question == q
  {
    var actions := [Ask(0, p), Evaluate(0, oracle(p)), Finish(0), Ask(1, q)];
    var s0 := Initial<Q, K, V>(ttl, 0.0);
    OneReview(ttl, keyOf, p, oracle(p));
    RunOfFour(s0, actions, keyOf);
    hide Run;
    OneEvaluationIsHonest(s0, actions, keyOf, oracle, p);
    hide Honest;
    var s3 := Run(s0, actions[..3], keyOf);
    AskEffect(s3, 1, q, keyOf);
    hide Step;
  }

  lemma RunOfFour<Q, K, V>(s: State<Q, K, V>, actions: seq<Action<Q, V>>, keyOf: Q -> K)
    requires |actions| == 4
    ensures Run(s, actions[..1], keyOf) == Step(s, actions[0], keyOf)
    ensures Run(s, actions[..3], keyOf) == Step(Step(Step(s, actions[0], keyOf), actions[1], keyOf), actions[2], keyOf)
    ensures Run(s, actions, keyOf) == Step(Run(s, actions[..3], keyOf), actions[3], keyOf)
  {
    hide Step;
    RunStep(s, actions, keyOf, 0);
    RunStep(s, actions, keyOf, 1);
    RunStep(s, actions, keyOf, 2);
    RunStep(s, actions, keyOf, 3);
    assert actions[..0] == [] && actions[..4] == actions;
  }

  lemma OneEvaluationIsHonest<Q(!new), K, V(!new)>(s: State<Q, K, V>, actions: seq<Action<Q, V>>, keyOf: Q -> K, oracle: Q -> V, p: Q)
    requires forall n | 0 <= n < |actions| && actions[n].Evaluate? :: n == 1 && actions[n] == Evaluate(0, oracle(p))
    requires |actions| >= 1 && Run(s, actions[..1], keyOf).callers == map[0 := InFlight(p)]
    ensures Honest(s, actions, keyOf, oracle)
  {
    hide Run;
  }

  lemma OneReview<Q, K, V>(ttl: real, keyOf: Q -> K, p: Q, v: V)
    ensures
      var s1 := Step(Initial<Q, K, V>(ttl, 0.0), Ask(0, p), keyOf);
      var s3 := Step(Step(s1, Evaluate(0, v), keyOf), Finish(0), keyOf);
      && s1.callers == map[0 := InFlight(p)]
      && s3.callers == map[] && s3.cache == map[keyOf(p) := Entry(0.0, v)] && |s3.served| == 1 && s3.now == 0.0 && s3.ttl == ttl
  {
  }

  // ---------------------------------------------------------------- how stale a verdict can be

  /** Every insertion of the run comes at most `delay` after the reviewer evaluated it. */
  ghost predicate PromptInsertions<Q, K, V>(ttl: real, start: real, actions: seq<Action<Q, V>>, keyOf: Q -> K, delay: real)
  {
    forall n | 0 <= n < |actions| && actions[n].Finish? ::
      var s := Run(Initial<Q, K, V>(ttl, start), actions[..n], keyOf);
      actions[n].caller in s.callers && s.callers[actions[n].caller].Evaluated? ==>
        s.now - s.callers[actions[n].caller].at <= delay
  }

  /** The reviewer gave this verdict for a question of that key, between `since` and `upTo`. */
  ghost predicate WasGivenSince<Q, K, V>(reviews: seq<Review<Q, V>>, keyOf: Q -> K, key: K, verdict: V, since: real, upTo: real)
  {
    exists i | 0 <= i < |reviews| ::
      && keyOf(reviews[i].question) == key && reviews[i].verdict == verdict
      && since <= reviews[i].at <= upTo
  }

  /** The verdict served was given for its key less than `bound` seconds before. */
  ghost predicate GivenWithin<Q, K, V>(reviews: seq<Review<Q, V>>, keyOf: Q -> K, x: Served<Q, V>, bound: real)
  {
    exists i | 0 <= i < |reviews| ::
      && keyOf(reviews[i].question) == keyOf(x.question) && reviews[i].verdict == x.verdict
      && x.at - bound < reviews[i].at <= x.at
  }

  ghost predicate ServedWithin<Q, K, V>(s: State<Q, K, V>, keyOf: Q -> K, bound: real)
  {
    forall i | 0 <= i < |s.served| :: GivenWithin(s.reviews, keyOf, s.served[i], bound)
  }

  ghost predicate FreshEnough<Q, K, V>(s: State<Q, K, V>, keyOf: Q -> K, delay: real)
  {
    && (forall k | k in s.cache :: WasGivenSince(s.reviews, keyOf, k, s.cache[k].verdict, s.cache[k].at - delay, s.cache[k].at))
    && ServedWithin(s, keyOf, s.ttl + delay)
  }

  lemma MoreReviewsSince<Q, K, V>(reviews: seq<Review<Q, V>>, more: seq<Review<Q, V>>, keyOf: Q -> K)
    ensures forall k: K, v: V, a: real, b: real ::
              WasGivenSince(reviews, keyOf, k, v, a, b) ==> WasGivenSince(reviews + more, keyOf, k, v, a, b)
    ensures forall x: Served<Q, V>, bound: real ::
              GivenWithin(reviews, keyOf, x, bound) ==> GivenWithin(reviews + more, keyOf, x, bound)
  {
    forall x: Served<Q, V>, bound: real | GivenWithin(reviews, keyOf, x, bound)
      ensures GivenWithin(reviews + more, keyOf, x, bound)
    {
      var i :| 0 <= i < |reviews| && keyOf(reviews[i].question) == keyOf(x.question) && reviews[i].verdict == x.verdict
        && x.at - bound < reviews[i].at <= x.at;
      assert (reviews + more)[i] == reviews[i];
    }
    forall k: K, v: V, a: real, b: real | WasGivenSince(reviews, keyOf, k, v, a, b)
      ensures WasGivenSince(reviews + more, keyOf, k, v, a, b)
    {
      var i :| 0 <= i < |reviews| && keyOf(reviews[i].question) == k && reviews[i].verdict == v && a <= reviews[i].at <= b;
      assert (reviews + more)[i] == reviews[i];
    }
  }

  lemma StepKeepsFresh<Q, K, V>(s: State<Q, K, V>, a: Action<Q, V>, keyOf: Q -> K, delay: real)
    requires Sound(s, keyOf) && FreshEnough(s, keyOf, delay) && delay >= 0.0 && s.ttl > 0.0
    requires a.Finish? && a.caller in s.callers && s.callers[a.caller].Evaluated? ==> s.now - s.callers[a.caller].at <= delay
    ensures FreshEnough(Step(s, a, keyOf), keyOf, delay)
  {
    match a
    case Evaluate(c, v) => EvaluateKeepsFresh(s, c, v, keyOf, delay);
    case Finish(c) => FinishKeepsFresh(s, c, keyOf, delay);
    case Ask(c, q) => AskKeepsFresh(s, c, q, keyOf, delay);
    case _ =>
  }

  lemma EvaluateKeepsFresh<Q, K, V>(s: State<Q, K, V>, c: nat, v: V, keyOf: Q -> K, delay: real)
    requires FreshEnough(s, keyOf, delay)
    ensures FreshEnough(Step(s, Evaluate(c, v), keyOf), keyOf, delay)
  {
    if c in s.callers && s.callers[c].InFlight? {
      var s' := Step(s, Evaluate(c, v), keyOf);
      MoreReviewsSince(s.reviews, [Review(s.callers[c].question, v, s.now)], keyOf);
      assert s'.cache == s.cache && s'.served == s.served;
      forall k | k in s'.cache
        ensures WasGivenSince(s'.reviews, keyOf, k, s'.cache[k].verdict, s'.cache[k].at - delay, s'.cache[k].at)
      {
        assert WasGivenSince(s.reviews, keyOf, k, s.cache[k].verdict, s.cache[k].at - delay, s.cache[k].at);
      }
      forall i | 0 <= i < |s'.served|
        ensures GivenWithin(s'.reviews, keyOf, s'.served[i], s.ttl + delay)
      {
        assert GivenWithin(s.reviews, keyOf, s.served[i], s.ttl + delay);
      }
    }
  }

  lemma FinishKeepsFresh<Q, K, V>(s: State<Q, K, V>, c: nat, keyOf: Q -> K, delay: real)
    requires Sound(s, keyOf) && FreshEnough(s, keyOf, delay) && s.ttl > 0.0
    requires c in s.callers && s.callers[c].Evaluated? ==> s.now - s.callers[c].at <= delay
    ensures FreshEnough(Step(s, Finish(c), keyOf), keyOf, delay)
  {
    if c in s.callers && s.callers[c].Evaluated? {
      var p := s.callers[c];
      var k := keyOf(p.question);
      var i :| 0 <= i < |s.reviews| && s.reviews[i] == Review(p.question, p.verdict, p.at);
      assert WasGivenSince(s.reviews, keyOf, k, p.verdict, s.now - delay, s.now);
      assert GivenWithin(s.reviews, keyOf, Served(c, p.question, p.verdict, s.now, FromReview(p.at)), s.ttl + delay);
      hide WasGivenSince, GivenWithin, Sound;
    }
  }

  lemma AskKeepsFresh<Q, K, V>(s: State<Q, K, V>, c: nat, q: Q, keyOf: Q -> K, delay: real)
    requires Sound(s, keyOf) && FreshEnough(s, keyOf, delay)
    ensures FreshEnough(Step(s, Ask(c, q), keyOf), keyOf, delay)
  {
    var k := keyOf(q);
    if c !in s.callers && Lookup(s.cache, k, s.now, s.ttl).Some? {
      var e := s.cache[k];
      assert SoundEntry(s.reviews, keyOf, k, e, s.now);
      assert WasGivenSince(s.reviews, keyOf, k, e.verdict, e.at - delay, e.at);
      assert GivenWithin(s.reviews, keyOf, Served(c, q, e.verdict, s.now, FromCache(e)), s.ttl + delay);
      hide WasGivenSince, GivenWithin, Sound;
    }
  }

  /**
    Bounded staleness: when insertions come within `delay` of the evaluation, every verdict
    served is one the reviewer gave for that key within the lifetime of entries plus `delay`.
   */
  lemma {:induction false} ServedVerdictsAreRecent<Q, K, V>(ttl: real, start: real, actions: seq<Action<Q, V>>, keyOf: Q -> K, delay: real)
    requires ttl > 0.0 && delay >= 0.0 && PromptInsertions<Q, K, V>(ttl, start, actions, keyOf, delay)
    ensures FreshEnough(Run(Initial<Q, K, V>(ttl, start), actions, keyOf), keyOf, delay)
    decreases |actions|
  {
    if actions != [] {
      var last := |actions| - 1;
      var before := actions[..last];
      assert PromptInsertions<Q, K, V>(ttl, start, before, keyOf, delay) by {
        assert forall n | 0 <= n < last :: before[..n] == actions[..n];
      }
      ServedVerdictsAreRecent<Q, K, V>(ttl, start, before, keyOf, delay);
      EveryRunIsSound<Q, K, V>(ttl, start, before, keyOf);
      TtlIsFixed(Initial<Q, K, V>(ttl, start), before, keyOf);
      hide FreshEnough, Sound;
      StepKeepsFresh(Run(Initial<Q, K, V>(ttl, start), before, keyOf), actions[last], keyOf, delay);
    }
  }

  lemma {:induction false} TtlIsFixed<Q, K, V>(s: State<Q, K, V>, actions: seq<Action<Q, V>>, keyOf: Q -> K)
    ensures Run(s, actions, keyOf).ttl == s.ttl
    decreases |actions|
  {
    if actions != [] {
      TtlIsFixed(s, actions[..|actions| - 1], keyOf);
    }
  }

  /** One caller is answered at once but inserts after `delay`; another one asks at time `late`. */
  function StaleRun<Q, V>(q: Q, v: V, delay: real, late: real): seq<Action<Q, V>>
  {
    [Ask(0, q), Evaluate(0, v), Tick(delay), Finish(0), Tick(late), Ask(1, q)]
  }

  /**
    An entry's age is not its verdict's: inserted after any `delay`, a verdict is served up to
    any `eps` short of the lifetime of entries plus that delay after it was given.
   */
  lemma EntryAgeIsNotVerdictAge<Q, K, V>(ttl: real, keyOf: Q -> K, q: Q, v: V, delay: real, eps: real)
    requires delay >= 0.0 && 0.0 < eps <= ttl
    ensures
      var late := delay + ttl - eps;
      var s := Run(Initial<Q, K, V>(ttl, 0.0), StaleRun(q, v, delay, late), keyOf);
      && PromptInsertions<Q, K, V>(ttl, 0.0, StaleRun(q, v, delay, late), keyOf, delay)
      && s.served == [Served(0, q, v, delay, FromReview(0.0)), Served(1, q, v, late, FromCache(Entry(delay, v)))]
      && s.reviews == [Review(q, v, 0.0)]
  {
    var actions := StaleRun(q, v, delay, delay + ttl - eps);
    var s0 := Initial<Q, K, V>(ttl, 0.0);
    hide Run, Step, PromptInsertions;
    RunOfSix(s0, actions, keyOf);
    FirstThree(ttl, keyOf, q, v, delay);
    LastThree(ttl, keyOf, q, v, delay, delay + ttl - eps);
    OneInsertionIsPrompt(ttl, actions, keyOf, q, v, delay);
  }

  lemma OneInsertionIsPrompt<Q, K, V>(ttl: real, actions: seq<Action<Q, V>>, keyOf: Q -> K, q: Q, v: V, delay: real)
    requires |actions| >= 3 && forall n | 0 <= n < |actions| && actions[n].Finish? :: n == 3 && actions[n] == Finish(0)
    requires Run(Initial<Q, K, V>(ttl, 0.0), actions[..3], keyOf)
          == State(ttl, delay, map[], map[0 := Evaluated(q, v, 0.0)], [Review(q, v, 0.0)], [])
    ensures PromptInsertions<Q, K, V>(ttl, 0.0, actions, keyOf, delay)
  {
    hide Run;
  }

  lemma FirstThree<Q, K, V>(ttl: real, keyOf: Q -> K, q: Q, v: V, delay: real)
    requires delay >= 0.0
    ensures Step(Step(Step(Initial<Q, K, V>(ttl, 0.0), Ask(0, q), keyOf), Evaluate(0, v), keyOf), Tick(delay), keyOf)
         == State(ttl, delay, map[], map[0 := Evaluated(q, v, 0.0)], [Review(q, v, 0.0)], [])
  {
  }

  lemma LastThree<Q, K, V>(ttl: real, keyOf: Q -> K, q: Q, v: V, delay: real, late: real)
    requires 0.0 <= delay <= late < delay + ttl
    ensures
      var s := State(ttl, delay, map[], map[0 := Evaluated(q, v, 0.0)], [Review(q, v, 0.0)], []);
      var s' := Step(Step(Step(s, Finish(0), keyOf), Tick(late), keyOf), Ask(1, q), keyOf);
      && s'.served == [Served(0, q, v, delay, FromReview(0.0)), Served(1, q, v, late, FromCache(Entry(delay, v)))]
      && s'.reviews == [Review(q, v, 0.0)]
  {
    var s := State(ttl, delay, map[], map[0 := Evaluated(q, v, 0.0)], [Review(q, v, 0.0)], []);
    var s4 := Step(s, Finish(0), keyOf);
    assert s4.cache == map[keyOf(q) := Entry(delay, v)] && s4.callers == map[];
    var s5 := Step(s4, Tick(late), keyOf);
    assert Lookup(s5.cache, keyOf(q), late, ttl) == Some(v);
  }

  /** The bound is the best one: no smaller one holds in all runs whose insertions come within `delay`. */
  lemma StalenessBoundIsExact<Q(!new), K, V(!new)>(ttl: real, keyOf: Q -> K, q: Q, v: V, delay: real, bound: real)
    requires ttl > 0.0 && delay >= 0.0
    ensures
      (forall start: real, actions: seq<Action<Q, V>> | PromptInsertions<Q, K, V>(ttl, start, actions, keyOf, delay) ::
         ServedWithin(Run(Initial<Q, K, V>(ttl, start), actions, keyOf), keyOf, bound))
      <==> bound >= ttl + delay
  {
    if bound >= ttl + delay {
      forall start: real, actions: seq<Action<Q, V>> | PromptInsertions<Q, K, V>(ttl, start, actions, keyOf, delay)
        ensures ServedWithin(Run(Initial<Q, K, V>(ttl, start), actions, keyOf), keyOf, bound)
      {
        ServedVerdictsAreRecent<Q, K, V>(ttl, start, actions, keyOf, delay);
        TtlIsFixed(Initial<Q, K, V>(ttl, start), actions, keyOf);
        WiderBound(Run(Initial<Q, K, V>(ttl, start), actions, keyOf), keyOf, ttl + delay, bound);
      }
    } else {
      var late := if bound > delay then bound else delay;
      EntryAgeIsNotVerdictAge<Q, K, V>(ttl, keyOf, q, v, delay, delay + ttl - late);
      hide Run, StaleRun, PromptInsertions;
      var s := Run(Initial<Q, K, V>(ttl, 0.0), StaleRun(q, v, delay, late), keyOf);
      assert !GivenWithin(s.reviews, keyOf, s.served[1], bound);
    }
  }

  lemma WiderBound<Q, K, V>(s: State<Q, K, V>, keyOf: Q -> K, bound: real, wider: real)
    requires ServedWithin(s, keyOf, bound) && bound <= wider
    ensures ServedWithin(s, keyOf, wider)
  {
    forall i | 0 <= i < |s.served|
      ensures GivenWithin(s.reviews, keyOf, s.served[i], wider)
    {
      assert GivenWithin(s.reviews, keyOf, s.served[i], bound);
    }
  }

  lemma RunOfSix<Q, K, V>(s: State<Q, K, V>, actions: seq<Action<Q, V>>, keyOf: Q -> K)
    requires |actions| == 6
    ensures Run(s, actions, keyOf)
         == Step(Step(Step(Step(Step(Step(s, actions[0], keyOf), actions[1], keyOf), actions[2], keyOf),
                 actions[3], keyOf), actions[4], keyOf), actions[5], keyOf)
    ensures Run(s, actions[..3], keyOf) == Step(Step(Step(s, actions[0], keyOf), actions[1], keyOf), actions[2], keyOf)
  {
    hide Step;
    RunStep(s, actions, keyOf, 0);
    RunStep(s, actions, keyOf, 1);
    RunStep(s, actions, keyOf, 2);
    RunStep(s, actions, keyOf, 3);
    RunStep(s, actions, keyOf, 4);
    RunStep(s, actions, keyOf, 5);
    assert actions[..0] == [] && actions[..6] == actions;
  }

  // ---------------------------------------------------------------- convergence

  /** From `t0` on the reviewer answers `r` for questions of that key. */
  ghost predicate Settled<Q, K, V>(reviews: seq<Review<Q, V>>, keyOf: Q -> K, key: K, r: V, t0: real)
  {
    forall i | 0 <= i < |reviews| && keyOf(reviews[i].question) == key && reviews[i].at >= t0 :: reviews[i].verdict == r
  }

  /** After `t1` no caller carries an answer for that key evaluated before `t0`. */
  ghost predicate Drained<Q, K, V>(s: State<Q, K, V>, keyOf: Q -> K, key: K, t0: real, t1: real)
  {
    s.now > t1 ==>
      forall c | c in s.callers && s.callers[c].Evaluated? && keyOf(s.callers[c].question) == key :: s.callers[c].at >= t0
  }

  ghost predicate Converged<Q, K, V>(s: State<Q, K, V>, keyOf: Q -> K, key: K, r: V, t1: real)
  {
    && (key in s.cache && s.cache[key].at > t1 ==> s.cache[key].verdict == r)
    && (forall i | 0 <= i < |s.served| && keyOf(s.served[i].question) == key && s.served[i].at >= t1 + s.ttl ::
          s.served[i].verdict == r)
  }

  lemma StepConverges<Q, K, V>(s: State<Q, K, V>, a: Action<Q, V>, keyOf: Q -> K, key: K, r: V, t0: real, t1: real)
    requires s.ttl > 0.0 && Sound(s, keyOf) && Converged(s, keyOf, key, r, t1)
    requires Settled(s.reviews, keyOf, key, r, t0) && Drained(s, keyOf, key, t0, t1)
    ensures Converged(Step(s, a, keyOf), keyOf, key, r, t1)
  {
    match a
    case Finish(c) =>
      if c in s.callers && s.callers[c].Evaluated? && keyOf(s.callers[c].question) == key && s.now > t1 {
        var p := s.callers[c];
        var i :| 0 <= i < |s.reviews| && s.reviews[i] == Review(p.question, p.verdict, p.at);
        assert p.verdict == r;
      }
    case _ =>
  }

  lemma {:induction false} ReviewsOnlyGrow<Q, K, V>(s: State<Q, K, V>, actions: seq<Action<Q, V>>, keyOf: Q -> K, n: nat)
    requires n <= |actions|
    ensures Run(s, actions[..n], keyOf).reviews <= Run(s, actions, keyOf).reviews
    decreases |actions|
  {
    if n < |actions| {
      var last := |actions| - 1;
      ReviewsOnlyGrow(s, actions[..last], keyOf, n);
      assert actions[..last][..n] == actions[..n];
    } else {
      assert actions[..n] == actions;
    }
  }

  /**
    Convergence: once the reviewer has settled on `r` for a key and older answers have
    drained by `t1`, every verdict returned for that key at or after `t1` plus the lifetime
    of entries is `r`, whatever the interleaving.
   */
  lemma {:induction false} EveryRunConverges<Q, K, V>(ttl: real, start: real, actions: seq<Action<Q, V>>, keyOf: Q -> K,
                                                      key: K, r: V, t0: real, t1: real)
    requires ttl > 0.0
    requires Settled(Run(Initial<Q, K, V>(ttl, start), actions, keyOf).reviews, keyOf, key, r, t0)
    requires forall n | 0 <= n <= |actions| :: Drained(Run(Initial<Q, K, V>(ttl, start), actions[..n], keyOf), keyOf, key, t0, t1)
    ensures Converged(Run(Initial<Q, K, V>(ttl, start), actions, keyOf), keyOf, key, r, t1)
    decreases |actions|
  {
    if actions != [] {
      var last := |actions| - 1;
      var before := actions[..last];
      var s := Run(Initial<Q, K, V>(ttl, start), before, keyOf);
      ReviewsOnlyGrow(Initial<Q, K, V>(ttl, start), actions, keyOf, last);
      assert Settled(s.reviews, keyOf, key, r, t0);
      forall n | 0 <= n <= last
        ensures Drained(Run(Initial<Q, K, V>(ttl, start), before[..n], keyOf), keyOf, key, t0, t1)
      {
        assert before[..n] == actions[..n];
      }
      EveryRunConverges(ttl, start, before, keyOf, key, r, t0, t1);
      EveryRunIsSound<Q, K, V>(ttl, start, before, keyOf);
      assert before[..last] == before;
      TtlIsFixed(Initial<Q, K, V>(ttl, start), before, keyOf);
      hide Sound, Converged, Settled, Drained;
      StepConverges(s, actions[last], keyOf, key, r, t0, t1);
    }
  }
}
