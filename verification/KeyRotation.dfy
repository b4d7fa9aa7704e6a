/**
  Key lookups by any number of concurrent callers over the one cached key set. Like the
  review caches, it is read and written in locked steps and not locked during a fetch. A
  caller takes the cached set when it is young, and fetches once more when that set does not
  hold its key.
 */
module KeyRotation {
  import opened Wrappers
  import opened Oidc
  import ReviewCache

  /** The issuer as the reviewer of a cache with a single key: its verdict is the set it publishes. */
  type KeySets = ReviewCache.State<(), (), KeySet>

  function OnlyKey(question: ()): ()
  {
    question
  }

  /** A lookup of one key, from the time it began. */
  datatype Call =
    | Looking(kid: string, since: real)
    | Forcing(kid: string, since: real)
    | Found(kid: string, since: real, key: RsaKey)
    | Missing(kid: string, since: real)
    | Errored(kid: string, since: real)

  datatype System = System(sets: KeySets, calls: map<nat, Call>)

  datatype Action =
    | Tick(to: real)
    | Begin(id: nat, kid: string)
    | Look(id: nat)
    | Publish(id: nat, keys: KeySet)
    | Store(id: nat)
    | Fail(id: nat)

  /** Where a key set takes a lookup: a key that is missing is looked for once more. */
  function Got(call: Call, keys: KeySet): Call
  {
    if call.kid in keys then Found(call.kid, call.since, keys[call.kid])
    else if call.Looking? then Forcing(call.kid, call.since)
    else Missing(call.kid, call.since)
  }

  predicate Waiting(s: System, id: nat)
  {
    id in s.calls && (s.calls[id].Looking? || s.calls[id].Forcing?)
  }

  /** One atomic step; an action that is not possible changes nothing. */
  function Step(s: System, a: Action): System
  {
    match a
    case Tick(to) => s.(sets := ReviewCache.Step(s.sets, ReviewCache.Tick(to), OnlyKey))
    case Begin(id, kid) => if id in s.calls then s else s.(calls := s.calls[id := Looking(kid, s.sets.now)])
    case Look(id) =>
      if Waiting(s, id) && id !in s.sets.callers then
        if s.calls[id].Forcing? then s.(sets := ReviewCache.Step(s.sets, ReviewCache.Refresh(id, ()), OnlyKey))
        else
          var sets := ReviewCache.Step(s.sets, ReviewCache.Ask(id, ()), OnlyKey);
          if id in sets.callers || sets.served == [] then s.(sets := sets)
          else System(sets, s.calls[id := Got(s.calls[id], sets.served[|sets.served| - 1].verdict)])
      else s
    case Publish(id, keys) => s.(sets := ReviewCache.Step(s.sets, ReviewCache.Evaluate(id, keys), OnlyKey))
    case Store(id) =>
      if Waiting(s, id) && id in s.sets.callers && s.sets.callers[id].Evaluated? then
        System(ReviewCache.Step(s.sets, ReviewCache.Finish(id), OnlyKey), s.calls[id := Got(s.calls[id], s.sets.callers[id].verdict)])
      else s
    case Fail(id) =>
      if Waiting(s, id) && id in s.sets.callers then
        System(ReviewCache.Step(s.sets, ReviewCache.Fail(id), OnlyKey), s.calls[id := Errored(s.calls[id].kid, s.calls[id].since)])
      else s
  }

  function Run(start: real, actions: seq<Action>): System
  {
    if actions == [] then System(ReviewCache.Initial(KEYS_TTL, start), map[])
    else Step(Run(start, actions[..|actions| - 1]), actions[|actions| - 1])
  }

  // ---------------------------------------------------------------- the invariant

  /** The issuer published a set without that key, at or after `since`. */
  ghost predicate PublishedWithout(sets: KeySets, kid: string, since: real)
  {
    exists i | 0 <= i < |sets.reviews| :: since <= sets.reviews[i].at <= sets.now && kid !in sets.reviews[i].verdict
  }

  /** A set with that key was handed out at or after `since`, fetched or from an entry of the cache that was young then. */
  ghost predicate HandedOut(sets: KeySets, kid: string, key: RsaKey, since: real)
  {
    exists j | 0 <= j < |sets.served| ::
      && since <= sets.served[j].at && kid in sets.served[j].verdict && sets.served[j].verdict[kid] == key
      && ReviewCache.SoundServed(sets.reviews, OnlyKey, KEYS_TTL, sets.served[j])
  }

  ghost predicate SoundCall(s: System, id: nat)
    requires id in s.calls
  {
    var call := s.calls[id];
    && call.since <= s.sets.now
    && (id in s.sets.callers ==>
          && (call.Looking? || call.Forcing?)
          && (s.sets.callers[id].Evaluated? ==> call.since <= s.sets.callers[id].at))
    && (call.Missing? ==> PublishedWithout(s.sets, call.kid, call.since))
    && (call.Found? ==> HandedOut(s.sets, call.kid, call.key, call.since))
  }

  ghost predicate Invariant(s: System)
  {
    && ReviewCache.Sound(s.sets, OnlyKey) && s.sets.ttl == KEYS_TTL
    && (forall id | id in s.sets.callers :: id in s.calls)
    && (forall id | id in s.calls :: SoundCall(s, id))
  }

  /** What was published and handed out stays so. */
  lemma StepKeepsRecords(sets: KeySets, a: ReviewCache.Action<(), KeySet>)
    ensures
      var sets' := ReviewCache.Step(sets, a, OnlyKey);
      && sets.now <= sets'.now && sets.ttl == sets'.ttl
      && sets.reviews <= sets'.reviews && sets.served <= sets'.served
  {
  }

  lemma RecordsStay(sets: KeySets, sets': KeySets, kid: string, since: real)
    requires sets.now <= sets'.now && sets.reviews <= sets'.reviews && sets.served <= sets'.served
    ensures PublishedWithout(sets, kid, since) ==> PublishedWithout(sets', kid, since)
    ensures forall key :: HandedOut(sets, kid, key, since) ==> HandedOut(sets', kid, key, since)
  {
    if PublishedWithout(sets, kid, since) {
      var i :| 0 <= i < |sets.reviews| && since <= sets.reviews[i].at <= sets.now && kid !in sets.reviews[i].verdict;
      assert sets'.reviews[i] == sets.reviews[i];
    }
    var more := sets'.reviews[|sets.reviews|..];
    assert sets'.reviews == sets.reviews + more;
    ReviewCache.MoreReviews(sets.reviews, more, OnlyKey);
    forall key | HandedOut(sets, kid, key, since)
      ensures HandedOut(sets', kid, key, since)
    {
      var j :| 0 <= j < |sets.served| && since <= sets.served[j].at && kid in sets.served[j].verdict
        && sets.served[j].verdict[kid] == key && ReviewCache.SoundServed(sets.reviews, OnlyKey, KEYS_TTL, sets.served[j]);
      assert sets'.served[j] == sets.served[j];
    }
  }

  /** A call that the step does not touch stays sound. */
  lemma OthersStaySound(s: System, s': System, id: nat)
    requires id in s.calls && SoundCall(s, id) && id in s'.calls && s'.calls[id] == s.calls[id]
    requires s.sets.now <= s'.sets.now && s.sets.reviews <= s'.sets.reviews && s.sets.served <= s'.sets.served
    requires id in s'.sets.callers ==> id in s.sets.callers && s'.sets.callers[id] == s.sets.callers[id]
    ensures SoundCall(s', id)
  {
    RecordsStay(s.sets, s'.sets, s.calls[id].kid, s.calls[id].since);
    hide PublishedWithout, HandedOut;
  }

  lemma TickKeepsInvariant(s: System, to: real)
    requires Invariant(s)
    ensures Invariant(Step(s, Tick(to)))
  {
    var a := ReviewCache.Tick(to);
    ReviewCache.StepKeepsSound(s.sets, a, OnlyKey);
    StepKeepsRecords(s.sets, a);
    var s' := Step(s, Tick(to));
    hide ReviewCache.Sound, SoundCall;
    forall id | id in s'.calls
      ensures SoundCall(s', id)
    {
      OthersStaySound(s, s', id);
    }
  }

  lemma BeginKeepsInvariant(s: System, id: nat, kid: string)
    requires Invariant(s)
    ensures Invariant(Step(s, Begin(id, kid)))
  {
    var s' := Step(s, Begin(id, kid));
    hide ReviewCache.Sound;
    forall c | c in s'.calls
      ensures SoundCall(s', c)
    {
      if c in s.calls {
        OthersStaySound(s, s', c);
      }
    }
  }

  lemma PublishKeepsInvariant(s: System, id: nat, keys: KeySet)
    requires Invariant(s)
    ensures Invariant(Step(s, Publish(id, keys)))
  {
    var a := ReviewCache.Evaluate(id, keys);
    ReviewCache.StepKeepsSound(s.sets, a, OnlyKey);
    StepKeepsRecords(s.sets, a);
    var s' := Step(s, Publish(id, keys));
    hide ReviewCache.Sound;
    forall c | c in s'.calls
      ensures SoundCall(s', c)
    {
      RecordsStay(s.sets, s'.sets, s.calls[c].kid, s.calls[c].since);
      assert SoundCall(s, c);
      hide PublishedWithout, HandedOut;
    }
  }

  /** The last set handed out has the key it was asked for. */
  lemma ServedIsHandedOut(sets: KeySets, kid: string, since: real)
    requires ReviewCache.Sound(sets, OnlyKey) && sets.ttl == KEYS_TTL && sets.served != []
    requires since <= sets.served[|sets.served| - 1].at && kid in sets.served[|sets.served| - 1].verdict
    ensures HandedOut(sets, kid, sets.served[|sets.served| - 1].verdict[kid], since)
  {
    assert ReviewCache.SoundServed(sets.reviews, OnlyKey, sets.ttl, sets.served[|sets.served| - 1]);
  }

  lemma LookKeepsInvariant(s: System, id: nat)
    requires Invariant(s)
    ensures Invariant(Step(s, Look(id)))
  {
    if Waiting(s, id) && id !in s.sets.callers {
      var a: ReviewCache.Action<(), KeySet> :=
        if s.calls[id].Forcing? then ReviewCache.Refresh(id, ()) else ReviewCache.Ask(id, ());
      ReviewCache.StepKeepsSound(s.sets, a, OnlyKey);
      StepKeepsRecords(s.sets, a);
      var s' := Step(s, Look(id));
      if s'.calls != s.calls {
        ReviewCache.AskEffect(s.sets, id, (), OnlyKey);
        if s'.calls[id].Found? {
          ServedIsHandedOut(s'.sets, s.calls[id].kid, s.calls[id].since);
        }
      }
      assert SoundCall(s, id);
      assert SoundCall(s', id) by {
        hide PublishedWithout, HandedOut, ReviewCache.Sound;
      }
      hide ReviewCache.Sound, SoundCall;
      forall c | c in s'.calls && c != id
        ensures SoundCall(s', c)
      {
        OthersStaySound(s, s', c);
      }
    }
  }

  lemma StoreKeepsInvariant(s: System, id: nat)
    requires Invariant(s)
    ensures Invariant(Step(s, Store(id)))
  {
    if Waiting(s, id) && id in s.sets.callers && s.sets.callers[id].Evaluated? {
      var a := ReviewCache.Finish(id);
      ReviewCache.StepKeepsSound(s.sets, a, OnlyKey);
      StepKeepsRecords(s.sets, a);
      var s', p := Step(s, Store(id)), s.sets.callers[id];
      assert SoundCall(s, id);
      if s'.calls[id].Found? {
        ServedIsHandedOut(s'.sets, s.calls[id].kid, s.calls[id].since);
      } else if s'.calls[id].Missing? {
        var i :| 0 <= i < |s.sets.reviews| && s.sets.reviews[i] == ReviewCache.Review(p.question, p.verdict, p.at);
        assert s'.sets.reviews[i].verdict == p.verdict;
      }
      hide ReviewCache.Sound;
      assert SoundCall(s', id);
      hide SoundCall;
      forall c | c in s'.calls && c != id
        ensures SoundCall(s', c)
      {
        OthersStaySound(s, s', c);
      }
    }
  }

  lemma FailKeepsInvariant(s: System, id: nat)
    requires Invariant(s)
    ensures Invariant(Step(s, Fail(id)))
  {
    if Waiting(s, id) && id in s.sets.callers {
      var a := ReviewCache.Fail(id);
      ReviewCache.StepKeepsSound(s.sets, a, OnlyKey);
      StepKeepsRecords(s.sets, a);
      var s' := Step(s, Fail(id));
      hide ReviewCache.Sound;
      forall c | c in s'.calls
        ensures SoundCall(s', c)
      {
        if c != id {
          OthersStaySound(s, s', c);
        } else {
          assert SoundCall(s, id);
        }
      }
    }
  }

  lemma {:induction false} EveryRunKeepsInvariant(start: real, actions: seq<Action>)
    ensures Invariant(Run(start, actions))
  {
    if actions != [] {
      var before := actions[..|actions| - 1];
      EveryRunKeepsInvariant(start, before);
      var s := Run(start, before);
      hide Step, Invariant;
      match actions[|actions| - 1]
      case Tick(to) => TickKeepsInvariant(s, to);
      case Begin(id, kid) => BeginKeepsInvariant(s, id, kid);
      case Look(id) => LookKeepsInvariant(s, id);
      case Publish(id, keys) => PublishKeepsInvariant(s, id, keys);
      case Store(id) => StoreKeepsInvariant(s, id);
      case Fail(id) => FailKeepsInvariant(s, id);
    }
  }

  /**
    Rotation under concurrency: whatever was cached and whoever else fetched, a lookup that
    ends without a key does so because the issuer, asked after the lookup began, published
    none. So a key that every set published from then on holds is never missed.
   */
  lemma MissingMeansUnpublished(start: real, actions: seq<Action>, id: nat)
    requires id in Run(start, actions).calls && Run(start, actions).calls[id].Missing?
    ensures
      var s := Run(start, actions);
      exists i | 0 <= i < |s.sets.reviews| ::
        s.calls[id].since <= s.sets.reviews[i].at && s.calls[id].kid !in s.sets.reviews[i].verdict
  {
    EveryRunKeepsInvariant(start, actions);
    hide Run;
    assert SoundCall(Run(start, actions), id);
  }

  /**
    The key a lookup finds is one the issuer published under that name, in a set handed out
    since the lookup began, fetched by this caller or less than an hour in the cache.
   */
  lemma FoundMeansPublished(start: real, actions: seq<Action>, id: nat)
    requires id in Run(start, actions).calls && Run(start, actions).calls[id].Found?
    ensures
      var s := Run(start, actions);
      var call := s.calls[id];
      && HandedOut(s.sets, call.kid, call.key, call.since)
      && exists i | 0 <= i < |s.sets.reviews| ::
           call.kid in s.sets.reviews[i].verdict && s.sets.reviews[i].verdict[call.kid] == call.key
  {
    EveryRunKeepsInvariant(start, actions);
    hide Run;
    var s := Run(start, actions);
    var sets, call := s.sets, s.calls[id];
    assert SoundCall(s, id);
    var j :| 0 <= j < |sets.served| && call.since <= sets.served[j].at && call.kid in sets.served[j].verdict
      && sets.served[j].verdict[call.kid] == call.key && ReviewCache.SoundServed(sets.reviews, OnlyKey, KEYS_TTL, sets.served[j]);
  }

  // ---------------------------------------------------------------- one lookup

  /** Several steps from a state. */
  function Steps(s: System, actions: seq<Action>): System
    decreases |actions|
  {
    if actions == [] then s else Steps(Step(s, actions[0]), actions[1..])
  }

  lemma {:induction false} StepsAppend(s: System, a: seq<Action>, b: seq<Action>)
    ensures Steps(s, a + b) == Steps(Steps(s, a), b)
    decreases |a|
  {
    hide Step;
    if a == [] {
      assert a + b == b;
    } else {
      assert (a + b)[1..] == a[1..] + b;
      StepsAppend(Step(s, a[0]), a[1..], b);
    }
  }

  lemma {:induction false} RunThenSteps(start: real, a: seq<Action>, b: seq<Action>)
    ensures Run(start, a + b) == Steps(Run(start, a), b)
    decreases |b|
  {
    hide Step;
    if b == [] {
      assert a + b == a;
    } else {
      var front := b[..|b| - 1];
      assert (a + b)[..|a + b| - 1] == a + front;
      RunThenSteps(start, a, front);
      assert b == front + [b[|b| - 1]];
      StepsAppend(Run(start, a), front, [b[|b| - 1]]);
      assert [b[|b| - 1]][1..] == [];
    }
  }

  /** The one entry, as the authenticator's cache holds it. */
  function Cached(s: System): Option<(real, KeySet)>
  {
    if () in s.sets.cache then Some((s.sets.cache[()].at, s.sets.cache[()].verdict)) else None
  }

  /** A fetch that fails, or returns at `done` with what was then published. */
  function Fetching(id: nat, published: Option<KeySet>, done: real): seq<Action>
  {
    match published
    case None => [Look(id), Fail(id)]
    case Some(keys) => [Look(id), Tick(done), Publish(id, keys), Store(id)]
  }

  function AllFetching(id: nat, published: seq<Option<KeySet>>, done: real): seq<Action>
  {
    if published == [] then [] else Fetching(id, published[0], done) + AllFetching(id, published[1..], done)
  }

  /** How a lookup ends that began at `since`. */
  function Ended(kid: string, since: real, r: Result<Option<RsaKey>, ()>): Call
  {
    match r
    case Err(_) => Errored(kid, since)
    case Ok(None) => Missing(kid, since)
    case Ok(Some(key)) => Found(kid, since, key)
  }

  /** What one fetch does to a lookup that is to make it. */
  lemma FetchEffect(s: System, id: nat, published: Option<KeySet>, done: real)
    requires Waiting(s, id) && id !in s.sets.callers && (published.Some? ==> s.sets.now <= done)
    requires s.calls[id].Forcing? || ReviewCache.Lookup(s.sets.cache, (), s.sets.now, s.sets.ttl).None?
    ensures
      var s', call := Steps(s, Fetching(id, published, done)), s.calls[id];
      && s'.sets.callers == s.sets.callers && s'.sets.ttl == s.sets.ttl && s'.sets.now == (if published.Some? then done else s.sets.now)
      && match published
         case None => Cached(s') == Cached(s) && s'.calls == s.calls[id := Errored(call.kid, call.since)]
         case Some(keys) =>
           && Cached(s') == Some((done, keys))
           && s'.calls == s.calls[id := if call.kid in keys then Found(call.kid, call.since, keys[call.kid])
                                        else if call.Looking? then Forcing(call.kid, call.since)
                                        else Missing(call.kid, call.since)]
  {
    match published
    case None => FailedFetch(s, id);
    case Some(keys) => SuccessfulFetch(s, id, keys, done);
    hide Step, Steps, Cached, ReviewCache.Lookup;
  }

  lemma FailedFetch(s: System, id: nat)
    requires Waiting(s, id) && id !in s.sets.callers
    requires s.calls[id].Forcing? || ReviewCache.Lookup(s.sets.cache, (), s.sets.now, s.sets.ttl).None?
    ensures Steps(s, [Look(id), Fail(id)])
         == s.(calls := s.calls[id := Errored(s.calls[id].kid, s.calls[id].since)])
  {
    var s1 := Step(s, Look(id));
    assert s1 == s.(sets := s.sets.(callers := s.sets.callers[id := ReviewCache.InFlight(())]));
    assert s1.sets.callers - {id} == s.sets.callers;
    assert [Look(id), Fail(id)][1..] == [Fail(id)] && [Fail(id)][1..] == [];
    assert Steps(s1, [Fail(id)]) == Step(s1, Fail(id));
  }

  lemma SuccessfulFetch(s: System, id: nat, keys: KeySet, done: real)
    requires Waiting(s, id) && id !in s.sets.callers && s.sets.now <= done
    requires s.calls[id].Forcing? || ReviewCache.Lookup(s.sets.cache, (), s.sets.now, s.sets.ttl).None?
    ensures
      var s' := Steps(s, [Look(id), Tick(done), Publish(id, keys), Store(id)]);
      && s'.sets.callers == s.sets.callers && s'.sets.ttl == s.sets.ttl && s'.sets.now == done
      && Cached(s') == Some((done, keys)) && s'.calls == s.calls[id := Got(s.calls[id], keys)]
  {
    FourSteps(s, Look(id), Tick(done), Publish(id, keys), Store(id));
    hide Steps;
    var s1 := Step(s, Look(id));
    assert s1 == s.(sets := s.sets.(callers := s.sets.callers[id := ReviewCache.InFlight(())]));
    var s3 := Step(Step(s1, Tick(done)), Publish(id, keys));
    assert s3.calls == s.calls && s3.sets.now == done && s3.sets.ttl == s.sets.ttl;
    assert s3.sets.callers == s.sets.callers[id := ReviewCache.Evaluated((), keys, done)];
    assert s3.sets.callers - {id} == s.sets.callers;
  }

  lemma FourSteps(s: System, a: Action, b: Action, c: Action, d: Action)
    ensures Steps(s, [a, b, c, d]) == Step(Step(Step(Step(s, a), b), c), d)
  {
    hide Step;
    assert [a, b, c, d][1..] == [b, c, d] && [b, c, d][1..] == [c, d] && [c, d][1..] == [d] && [d][1..] == [];
    assert Steps(s, [a, b, c, d]) == Steps(Step(s, a), [b, c, d]) == Steps(Step(Step(s, a), b), [c, d]);
    assert Steps(Step(Step(Step(s, a), b), c), [d]) == Step(Step(Step(Step(s, a), b), c), d);
  }

  /** The fetches of a lookup as the machine sees them: what a fetch returns is the set of its usable keys. */
  function Sets(crypto: Crypto, fetched: seq<Option<seq<Jwk>>>): (sets: seq<Option<KeySet>>)
    ensures |sets| == |fetched|
    ensures forall i | 0 <= i < |fetched| ::
              sets[i] == match fetched[i] case None => None case Some(published) => Some(KeysOf(crypto, published))
  {
    if fetched == [] then []
    else [match fetched[0] case None => None case Some(published) => Some(KeysOf(crypto, published))] + Sets(crypto, fetched[1..])
  }

  /** One lookup from its beginning to its end; a young set without the key is looked at before any fetch. */
  function LookupActions(crypto: Crypto, id: nat, kid: string, young: bool, fetched: seq<Option<seq<Jwk>>>, done: real): seq<Action>
  {
    [Begin(id, kid)] + (if young then [Look(id)] else []) + AllFetching(id, Sets(crypto, fetched), done)
  }

  /** A lookup that begins now: it takes the cached set if that is young. */
  function Looked(s: System, id: nat, kid: string): System
  {
    var begun := Step(s, Begin(id, kid));
    if Young(s) then Step(begun, Look(id)) else begun
  }

  predicate Young(s: System)
  {
    Cached(s).Some? && s.sets.now - Cached(s).value.0 < 3600.0
  }

  /** In `s'` the lookup of `id`, begun in `s`, has ended, and nobody else was touched. */
  predicate HasEnded(s: System, s': System, id: nat, kid: string, r: Result<Option<RsaKey>, ()>, after: Option<(real, KeySet)>)
  {
    && s'.calls == s.calls[id := Ended(kid, s.sets.now, r)]
    && s'.sets.callers == s.sets.callers && Cached(s') == after
  }

  /**
    The authenticator's lookup is one of this machine, from whatever state the other callers
    have left it in: it ends in the same way, leaves the same set in the cache and does not
    touch the others.
   */
  lemma FindKeyIsLookup(crypto: Crypto, s: System, id: nat, kid: string, fetched: seq<Option<seq<Jwk>>>,
                        r: Result<Option<RsaKey>, ()>, after: Option<(real, KeySet)>)
    requires s.sets.ttl == KEYS_TTL && id !in s.calls && id !in s.sets.callers
    requires GoodFind(crypto, kid, Cached(s), fetched, s.sets.now, r, after)
    ensures
      var done := match after case None => s.sets.now case Some((stored, _)) => stored;
      HasEnded(s, Steps(s, LookupActions(crypto, id, kid, Young(s), fetched, done)), id, kid, r, after)
  {
    var done := match after case None => s.sets.now case Some((stored, _)) => stored;
    var sets := Sets(crypto, fetched);
    LookupSplits(s, id, kid, AllFetching(id, sets, done));
    FindCases(crypto, kid, Cached(s), fetched, s.sets.now, r, after);
    hide GoodFind, AllFetching, Steps, KeysOf, Step, HasEnded, Looked;
    if |fetched| == 0 {
      HitEnds(s, id, kid, sets, done, r, after);
    } else if |fetched| == 1 {
      OneFetchEnds(s, id, kid, sets, done, r, after);
    } else {
      TwoFetchesEnd(s, id, kid, sets, done, r, after);
    }
  }

  lemma HitEnds(s: System, id: nat, kid: string, sets: seq<Option<KeySet>>, done: real,
                r: Result<Option<RsaKey>, ()>, after: Option<(real, KeySet)>)
    requires s.sets.ttl == KEYS_TTL && id !in s.calls && id !in s.sets.callers
    requires sets == [] && Young(s) && kid in Cached(s).value.1 && r == Ok(Some(Cached(s).value.1[kid])) && after == Cached(s)
    ensures HasEnded(s, Steps(Looked(s, id, kid), AllFetching(id, sets, done)), id, kid, r, after)
  {
    LookFirst(s, id, kid);
    NoFetch(Looked(s, id, kid), id, sets, done);
    hide Looked, Steps, AllFetching;
  }

  lemma OneFetchEnds(s: System, id: nat, kid: string, sets: seq<Option<KeySet>>, done: real,
                     r: Result<Option<RsaKey>, ()>, after: Option<(real, KeySet)>)
    requires s.sets.ttl == KEYS_TTL && id !in s.calls && id !in s.sets.callers
    requires |sets| == 1 && (Young(s) ==> kid !in Cached(s).value.1)
    requires match sets[0]
             case None => r.Err? && after == Cached(s)
             case Some(keys) =>
               && (kid in keys || Young(s)) && s.sets.now <= done && after == Some((done, keys))
               && r == Ok(if kid in keys then Some(keys[kid]) else None)
    ensures HasEnded(s, Steps(Looked(s, id, kid), AllFetching(id, sets, done)), id, kid, r, after)
  {
    LookFirst(s, id, kid);
    hide Looked, Steps, AllFetching, Cached, Young;
    OneFetch(Looked(s, id, kid), id, sets, done);
  }

  lemma TwoFetchesEnd(s: System, id: nat, kid: string, sets: seq<Option<KeySet>>, done: real,
                      r: Result<Option<RsaKey>, ()>, after: Option<(real, KeySet)>)
    requires s.sets.ttl == KEYS_TTL && id !in s.calls && id !in s.sets.callers
    requires |sets| == 2 && !Young(s) && sets[0].Some? && kid !in sets[0].value && s.sets.now <= done
    requires match sets[1]
             case None => r.Err? && after == Some((done, sets[0].value))
             case Some(keys) => after == Some((done, keys)) && r == Ok(if kid in keys then Some(keys[kid]) else None)
    ensures HasEnded(s, Steps(Looked(s, id, kid), AllFetching(id, sets, done)), id, kid, r, after)
  {
    LookFirst(s, id, kid);
    hide Looked, Steps, AllFetching, Cached, Young;
    TwoFetches(Looked(s, id, kid), id, sets, done);
  }

  lemma NoFetch(s: System, id: nat, published: seq<Option<KeySet>>, done: real)
    ensures published == [] ==> Steps(s, AllFetching(id, published, done)) == s
  {
  }

  /** A lookup that ends with a first fetch. */
  lemma OneFetch(s: System, id: nat, published: seq<Option<KeySet>>, done: real)
    requires |published| == 1 && (published[0].Some? ==> s.sets.now <= done)
    requires Waiting(s, id) && id !in s.sets.callers
    requires s.calls[id].Forcing? || ReviewCache.Lookup(s.sets.cache, (), s.sets.now, s.sets.ttl).None?
    ensures
      var s', call := Steps(s, AllFetching(id, published, done)), s.calls[id];
      && s'.sets.callers == s.sets.callers
      && match published[0]
         case None => Cached(s') == Cached(s) && s'.calls == s.calls[id := Errored(call.kid, call.since)]
         case Some(keys) =>
           && Cached(s') == Some((done, keys))
           && s'.calls == s.calls[id := if call.kid in keys then Found(call.kid, call.since, keys[call.kid])
                                        else if call.Looking? then Forcing(call.kid, call.since)
                                        else Missing(call.kid, call.since)]
  {
    FirstFetch(s, id, published, done);
    FetchEffect(s, id, published[0], done);
    assert AllFetching(id, published[1..], done) == [];
    hide Step, Fetching;
  }

  /** A lookup whose first fetch did not return the key and that makes a second one. */
  lemma TwoFetches(s: System, id: nat, published: seq<Option<KeySet>>, done: real)
    requires |published| == 2 && published[0].Some? && s.sets.now <= done
    requires Waiting(s, id) && s.calls[id].Looking? && id !in s.sets.callers && s.calls[id].kid !in published[0].value
    requires ReviewCache.Lookup(s.sets.cache, (), s.sets.now, s.sets.ttl).None?
    ensures
      var s', call := Steps(s, AllFetching(id, published, done)), s.calls[id];
      && s'.sets.callers == s.sets.callers
      && match published[1]
         case None => Cached(s') == Some((done, published[0].value)) && s'.calls == s.calls[id := Errored(call.kid, call.since)]
         case Some(keys) =>
           && Cached(s') == Some((done, keys))
           && s'.calls == s.calls[id := if call.kid in keys then Found(call.kid, call.since, keys[call.kid])
                                        else Missing(call.kid, call.since)]
  {
    FirstFetch(s, id, published, done);
    FetchEffect(s, id, published[0], done);
    var once := Steps(s, Fetching(id, published[0], done));
    OneFetch(once, id, published[1..], done);
    hide Step, Fetching, Steps, AllFetching;
  }

  /** A lookup before its first fetch. */
  lemma LookFirst(s: System, id: nat, kid: string)
    requires s.sets.ttl == KEYS_TTL && id !in s.calls && id !in s.sets.callers
    ensures
      var looked := Looked(s, id, kid);
      && looked.sets.callers == s.sets.callers && looked.sets.now == s.sets.now && Cached(looked) == Cached(s)
      && looked.calls == s.calls[id := if !Young(s) then Looking(kid, s.sets.now)
                                       else if kid in Cached(s).value.1 then Found(kid, s.sets.now, Cached(s).value.1[kid])
                                       else Forcing(kid, s.sets.now)]
      && (!Young(s) ==> ReviewCache.Lookup(looked.sets.cache, (), looked.sets.now, looked.sets.ttl).None?)
  {
  }

  /** What the authenticator's contract says, case by case. */
  lemma FindCases(crypto: Crypto, kid: string, cached: Option<(real, KeySet)>, fetched: seq<Option<seq<Jwk>>>,
                  at: real, r: Result<Option<RsaKey>, ()>, after: Option<(real, KeySet)>)
    requires GoodFind(crypto, kid, cached, fetched, at, r, after)
    ensures
      var young, sets := cached.Some? && at - cached.value.0 < 3600.0, Sets(crypto, fetched);
      && (forall i | 0 <= i < |sets| && sets[i].Some? :: after.Some? && at <= after.value.0)
      && match |fetched|
         case 0 => young && kid in cached.value.1 && r == Ok(Some(cached.value.1[kid])) && after == cached
         case 1 =>
           && (young ==> kid !in cached.value.1)
           && (match sets[0]
               case None => r.Err? && after == cached
               case Some(keys) =>
                 && (kid in keys || young) && after.Some? && after.value.1 == keys
                 && r == Ok(if kid in keys then Some(keys[kid]) else None))
         case 2 =>
           && !young && sets[0].Some? && kid !in sets[0].value && after.Some?
           && (match sets[1]
               case None => r.Err? && after.value.1 == sets[0].value
               case Some(keys) => after.value.1 == keys && r == Ok(if kid in keys then Some(keys[kid]) else None))
         case _ => false
  {
    var sets := Sets(crypto, fetched);
    forall i | 0 <= i < |fetched| && fetched[i].Some?
      ensures sets[i] == Some(KeysOf(crypto, fetched[i].value))
      ensures kid in KeysOf(crypto, fetched[i].value) <==> Publishes(crypto, fetched[i].value, kid)
    {
      KeysOfIsExact(crypto, fetched[i].value, kid);
    }
    hide KeysOf, Publishes;
  }

  lemma FirstFetch(s: System, id: nat, published: seq<Option<KeySet>>, done: real)
    requires published != []
    ensures Steps(s, AllFetching(id, published, done))
         == Steps(Steps(s, Fetching(id, published[0], done)), AllFetching(id, published[1..], done))
  {
    StepsAppend(s, Fetching(id, published[0], done), AllFetching(id, published[1..], done));
  }

  lemma LookupSplits(s: System, id: nat, kid: string, rest: seq<Action>)
    ensures Steps(s, [Begin(id, kid)] + (if Young(s) then [Look(id)] else []) + rest) == Steps(Looked(s, id, kid), rest)
  {
    hide Step, Young;
    var look := if Young(s) then [Look(id)] else [];
    StepsAppend(s, [Begin(id, kid)] + look, rest);
    StepsAppend(s, [Begin(id, kid)], look);
    assert [Begin(id, kid)][1..] == [] && (Young(s) ==> look[1..] == []);
  }
}
