/**
  Many requests at once through the stages of the pipeline, sharing the review caches under
  any interleaving, any delay of replies and any failures. The result, request by request:
  a completed request gets the decision of a filter that asks the reviewer directly, unless
  a call failed or a review of the run shares a cache key with a question of this request
  and has another answer.
 */
module EndToEnd {
  import opened Wrappers
  import opened Authorization
  import opened ReviewApi
  import opened Environment
  import opened Pipeline
  import ReviewCache

  /** Both caches as one: a token, or the seven-field key of an access review. */
  datatype CacheKey = ByToken(token: string) | ByFields(key: string) | Uncached(oidcToken: string)

  function KeyOf(q: Question): CacheKey
  {
    match q
    case TokenQuestion(token) => ByToken(token)
    case AccessQuestion(attributes) => ByFields(AccessKey(attributes))
    case OidcQuestion(token) => Uncached(token)
  }

  /** A request under way; `interrupted` once a call failed that the reviewer would have answered. */
  datatype Progress = Progress(req: Request, stage: Stage, interrupted: bool)

  type Reviews = ReviewCache.State<Question, CacheKey, Answer>

  datatype System = System(reviews: Reviews, requests: map<nat, Progress>)

  datatype Action =
    | Tick(to: real)
    | Arrive(id: nat, req: Request)
    | Ask(id: nat)
    | Evaluate(id: nat)
    | Finish(id: nat)
    | AnswerOidc(id: nat)
    | Fail(id: nat)

  ghost predicate WellFormed(st: Settings, s: System)
  {
    ValidSettings(st) && forall id | id in s.requests :: SoundStage(st, s.requests[id].stage)
  }

  /** The question a request waits for, if any. */
  function Pending(s: System, id: nat): Option<Question>
  {
    if id in s.requests then Need(s.requests[id].stage) else None
  }

  /** The request `id` goes on with an answer to its question. */
  ghost function Answered(st: Settings, s: System, id: nat, answer: Answer, interrupted: bool): (s': System)
    requires WellFormed(st, s) && Pending(s, id).Some?
    ensures WellFormed(st, s') && s'.reviews == s.reviews
  {
    var p := s.requests[id];
    s.(requests := s.requests[id := Progress(p.req, Resume(st, p.req, p.stage, answer), p.interrupted || interrupted)])
  }

  /** One atomic step; an action that is not possible changes nothing. */
  ghost function Step(st: Settings, oracle: Oracle, s: System, a: Action): (s': System)
    requires WellFormed(st, s)
    ensures WellFormed(st, s')
  {
    match a
    case Tick(to) => s.(reviews := ReviewCache.Step(s.reviews, ReviewCache.Tick(to), KeyOf))
    case Arrive(id, req) =>
      if id in s.requests then s else s.(requests := s.requests[id := Progress(req, Start(st, req), false)])
    case Ask(id) =>
      if id !in s.reviews.callers && Pending(s, id).Some? && !Pending(s, id).value.OidcQuestion? then
        var q := Pending(s, id).value;
        var s' := s.(reviews := ReviewCache.Step(s.reviews, ReviewCache.Ask(id, q), KeyOf));
        if id in s'.reviews.callers then s'
        else Answered(st, s', id, s'.reviews.served[|s'.reviews.served| - 1].verdict, false)
      else s
    case Evaluate(id) =>
      if id in s.reviews.callers && s.reviews.callers[id].InFlight? && oracle(s.reviews.callers[id].question) != Failed then
        s.(reviews := ReviewCache.Step(s.reviews, ReviewCache.Evaluate(id, oracle(s.reviews.callers[id].question)), KeyOf))
      else s
    case Finish(id) =>
      if id in s.reviews.callers && s.reviews.callers[id].Evaluated? && Pending(s, id).Some? then
        var s' := s.(reviews := ReviewCache.Step(s.reviews, ReviewCache.Finish(id), KeyOf));
        Answered(st, s', id, s.reviews.callers[id].verdict, false)
      else s
    case AnswerOidc(id) =>
      if Pending(s, id).Some? && Pending(s, id).value.OidcQuestion? then Answered(st, s, id, oracle(Pending(s, id).value), false)
      else s
    case Fail(id) =>
      if Pending(s, id).Some? && (id in s.reviews.callers || Pending(s, id).value.OidcQuestion?) then
        var s' := s.(reviews := ReviewCache.Step(s.reviews, ReviewCache.Fail(id), KeyOf));
        Answered(st, s', id, Failed, oracle(Pending(s, id).value) != Failed)
      else s
  }

  ghost function Run(st: Settings, oracle: Oracle, start: real, actions: seq<Action>): (s: System)
    requires ValidSettings(st)
    ensures WellFormed(st, s)
  {
    if actions == [] then System(ReviewCache.Initial(ReviewCache.TTL, start), map[])
    else Step(st, oracle, Run(st, oracle, start, actions[..|actions| - 1]), actions[|actions| - 1])
  }

  lemma RunMore(st: Settings, oracle: Oracle, start: real, actions: seq<Action>, a: Action)
    requires ValidSettings(st)
    ensures Run(st, oracle, start, actions + [a]) == Step(st, oracle, Run(st, oracle, start, actions), a)
  {
    hide Step;
    assert (actions + [a])[..|actions|] == actions;
  }

  // ---------------------------------------------------------------- what may disturb a request

  type Reviewed = ReviewCache.Review<Question, Answer>

  /** No review of the log shares the key of `q` and has another answer. */
  ghost predicate Faithful(oracle: Oracle, log: seq<Reviewed>, q: Question)
  {
    forall i | 0 <= i < |log| && KeyOf(log[i].question) == KeyOf(q) :: oracle(log[i].question) == oracle(q)
  }

  ghost predicate AllFaithful(oracle: Oracle, log: seq<Reviewed>, questions: seq<Question>)
  {
    forall i | 0 <= i < |questions| :: Faithful(oracle, log, questions[i])
  }

  /** No review of the log stands in the way of a question the direct filter would ask for this request. */
  ghost predicate Undisturbed(st: Settings, oracle: Oracle, log: seq<Reviewed>, req: Request)
    requires ValidSettings(st)
  {
    AllFaithful(oracle, log, Asked(st, req, Start(st, req), oracle))
  }

  // ---------------------------------------------------------------- the invariant

  ghost predicate HonestReviews(oracle: Oracle, reviews: seq<Reviewed>)
  {
    forall i | 0 <= i < |reviews| :: reviews[i].verdict == oracle(reviews[i].question)
  }

  /** The cache holds verdicts of its own log, and the log holds the reviewer's answers. */
  ghost predicate HonestCache(oracle: Oracle, reviews: Reviews)
  {
    ReviewCache.Sound(reviews, KeyOf) && HonestReviews(oracle, reviews.reviews)
  }

  ghost predicate TruthfulCaller(oracle: Oracle, s: System, id: nat)
    requires id in s.reviews.callers
  {
    var caller := s.reviews.callers[id];
    && Pending(s, id) == Some(caller.question) && !caller.question.OidcQuestion?
    && (caller.Evaluated? ==> caller.verdict == oracle(caller.question))
  }

  /** The questions of `rest` are the last ones of `all`. */
  predicate IsSuffix(rest: seq<Question>, all: seq<Question>)
  {
    |rest| <= |all| && rest == all[|all| - |rest|..]
  }

  /** A request that is neither interrupted nor disturbed by the log will ask and conclude as the direct filter does. */
  ghost predicate OnCourse(st: Settings, oracle: Oracle, log: seq<Reviewed>, p: Progress)
    requires ValidSettings(st) && SoundStage(st, p.stage)
  {
    if p.interrupted then p.stage == Done(InternalError)
    else
      Undisturbed(st, oracle, log, p.req) ==>
        && Conclude(st, p.req, p.stage, oracle) == Decide(st, p.req, oracle)
        && IsSuffix(Asked(st, p.req, p.stage, oracle), Asked(st, p.req, Start(st, p.req), oracle))
  }

  /** The invariant is relative to a log that the state's own one is the beginning of. */
  ghost predicate Invariant(st: Settings, oracle: Oracle, log: seq<Reviewed>, s: System)
    requires WellFormed(st, s)
  {
    && HonestCache(oracle, s.reviews)
    && (forall id | id in s.reviews.callers :: TruthfulCaller(oracle, s, id))
    && (forall id | id in s.requests :: OnCourse(st, oracle, log, s.requests[id]))
  }

  /** The oracle's answer, or a failure, keeps a request on course. */
  lemma AnswerKeepsCourse(st: Settings, oracle: Oracle, log: seq<Reviewed>, p: Progress, answer: Answer, interrupted: bool)
    requires ValidSettings(st) && SoundStage(st, p.stage) && OnCourse(st, oracle, log, p) && Need(p.stage).Some?
    requires !interrupted && Undisturbed(st, oracle, log, p.req) ==> answer == oracle(Need(p.stage).value)
    requires interrupted ==> answer == Failed
    ensures OnCourse(st, oracle, log, Progress(p.req, Resume(st, p.req, p.stage, answer), p.interrupted || interrupted))
  {
    hide RecordsOf, Authenticate, BeginAuthorization, Authorize, DecideOn, AccessKey, Start, IsSuffix;
    if !interrupted && Undisturbed(st, oracle, log, p.req) {
      hide Undisturbed;
      var q := Need(p.stage).value;
      var next := Resume(st, p.req, p.stage, answer);
      hide Resume, Decide;
      var rest := Asked(st, p.req, next, oracle);
      assert Asked(st, p.req, p.stage, oracle) == [q] + rest;
      SuffixTail(q, rest, Asked(st, p.req, Start(st, p.req), oracle));
    }
  }

  lemma SuffixTail(q: Question, rest: seq<Question>, all: seq<Question>)
    requires IsSuffix([q] + rest, all)
    ensures IsSuffix(rest, all) && q in all
  {
    assert ([q] + rest)[0] == q;
    assert ([q] + rest)[1..] == rest;
  }

  /** An undisturbed request waits for the answer to a question the direct filter would ask. */
  lemma PendingIsAsked(st: Settings, oracle: Oracle, log: seq<Reviewed>, p: Progress)
    requires ValidSettings(st) && SoundStage(st, p.stage) && OnCourse(st, oracle, log, p) && Need(p.stage).Some?
    requires Undisturbed(st, oracle, log, p.req)
    ensures Need(p.stage).value in Asked(st, p.req, Start(st, p.req), oracle)
  {
    hide RecordsOf, Authenticate, BeginAuthorization, Authorize, DecideOn, AccessKey, Start, IsSuffix, Undisturbed;
    var q := Need(p.stage).value;
    var rest := Asked(st, p.req, Resume(st, p.req, p.stage, oracle(q)), oracle);
    assert Asked(st, p.req, p.stage, oracle) == [q] + rest;
    hide Resume, Decide;
    SuffixTail(q, rest, Asked(st, p.req, Start(st, p.req), oracle));
  }

  lemma PendingIsFaithful(st: Settings, oracle: Oracle, log: seq<Reviewed>, p: Progress)
    requires ValidSettings(st) && SoundStage(st, p.stage) && OnCourse(st, oracle, log, p) && Need(p.stage).Some?
    requires Undisturbed(st, oracle, log, p.req)
    ensures Faithful(oracle, log, Need(p.stage).value)
  {
    PendingIsAsked(st, oracle, log, p);
    hide Need, Asked, OnCourse, Start, Faithful;
  }

  /** A cached verdict is the reviewer's own for a question that no review of the log stands in the way of. */
  lemma HitIsRight(oracle: Oracle, log: seq<Reviewed>, reviews: Reviews, q: Question)
    requires HonestCache(oracle, reviews) && reviews.reviews <= log && Faithful(oracle, log, q) && KeyOf(q) in reviews.cache
    ensures reviews.cache[KeyOf(q)].verdict == oracle(q)
  {
    var e := reviews.cache[KeyOf(q)];
    assert ReviewCache.SoundEntry(reviews.reviews, KeyOf, KeyOf(q), e, reviews.now);
    hide KeyOf;
    var i :| 0 <= i < |reviews.reviews| && KeyOf(reviews.reviews[i].question) == KeyOf(q)
      && reviews.reviews[i].verdict == e.verdict && reviews.reviews[i].at <= e.at;
    assert log[i] == reviews.reviews[i];
  }

  /** Going on with an answer keeps the invariant, when no other caller is affected. */
  lemma AnsweredKeepsInvariant(st: Settings, oracle: Oracle, log: seq<Reviewed>, s: System, reviews: Reviews, id: nat,
                               answer: Answer, interrupted: bool)
    requires WellFormed(st, s) && Invariant(st, oracle, log, s) && Pending(s, id).Some?
    requires HonestCache(oracle, reviews) && reviews.callers == s.reviews.callers - {id}
    requires !interrupted && Undisturbed(st, oracle, log, s.requests[id].req) ==> answer == oracle(Pending(s, id).value)
    requires interrupted ==> answer == Failed
    ensures Invariant(st, oracle, log, Answered(st, s.(reviews := reviews), id, answer, interrupted))
  {
    hide RecordsOf, Authenticate, BeginAuthorization, Authorize, DecideOn, AccessKey;
    AnswerKeepsCourse(st, oracle, log, s.requests[id], answer, interrupted);
    hide OnCourse, HonestCache, Undisturbed, Resume, Need;
    var s' := Answered(st, s.(reviews := reviews), id, answer, interrupted);
    forall other | other in s'.reviews.callers
      ensures TruthfulCaller(oracle, s', other)
    {
      assert TruthfulCaller(oracle, s, other);
    }
  }

  lemma AskKeepsInvariant(st: Settings, oracle: Oracle, log: seq<Reviewed>, s: System, id: nat)
    requires WellFormed(st, s) && Invariant(st, oracle, log, s) && s.reviews.reviews <= log
    ensures Invariant(st, oracle, log, Step(st, oracle, s, Ask(id)))
  {
    hide RecordsOf, Authenticate, BeginAuthorization, Authorize, DecideOn, AccessKey;
    hide OnCourse, Resume, Need, ReviewCache.Step, ReviewCache.Lookup, ReviewCache.Sound, KeyOf, Faithful, Undisturbed;
    if id !in s.reviews.callers && Pending(s, id).Some? && !Pending(s, id).value.OidcQuestion? {
      var q := Pending(s, id).value;
      ReviewCache.AskEffect(s.reviews, id, q, KeyOf);
      ReviewCache.StepKeepsSound(s.reviews, ReviewCache.Ask(id, q), KeyOf);
      var reviews := ReviewCache.Step(s.reviews, ReviewCache.Ask(id, q), KeyOf);
      if id in reviews.callers {
        KeepOtherCallers(st, oracle, s, s.(reviews := reviews), id);
      } else {
        var answer := reviews.served[|reviews.served| - 1].verdict;
        assert answer == s.reviews.cache[KeyOf(q)].verdict;
        if Undisturbed(st, oracle, log, s.requests[id].req) {
          PendingIsFaithful(st, oracle, log, s.requests[id]);
          HitIsRight(oracle, log, s.reviews, q);
        }
        AnsweredKeepsInvariant(st, oracle, log, s, reviews, id, answer, false);
      }
    }
  }

  lemma KeepOtherCallers(st: Settings, oracle: Oracle, s: System, s': System, id: nat)
    requires forall c | c in s.reviews.callers :: TruthfulCaller(oracle, s, c)
    requires s'.requests == s.requests && id in s'.reviews.callers && TruthfulCaller(oracle, s', id)
    requires s'.reviews.callers.Keys == s.reviews.callers.Keys + {id}
    requires forall c | c in s.reviews.callers && c != id :: s'.reviews.callers[c] == s.reviews.callers[c]
    ensures forall c | c in s'.reviews.callers :: TruthfulCaller(oracle, s', c)
  {
    hide Need;
    forall c | c in s'.reviews.callers
      ensures TruthfulCaller(oracle, s', c)
    {
      if c != id {
        assert TruthfulCaller(oracle, s, c);
      }
    }
  }

  lemma FinishKeepsInvariant(st: Settings, oracle: Oracle, log: seq<Reviewed>, s: System, id: nat)
    requires WellFormed(st, s) && Invariant(st, oracle, log, s)
    ensures Invariant(st, oracle, log, Step(st, oracle, s, Finish(id)))
  {
    hide RecordsOf, Authenticate, BeginAuthorization, Authorize, DecideOn, AccessKey;
    hide OnCourse, Resume, Need, ReviewCache.Step, ReviewCache.Sound, KeyOf, Undisturbed;
    if id in s.reviews.callers && s.reviews.callers[id].Evaluated? && Pending(s, id).Some? {
      assert TruthfulCaller(oracle, s, id);
      ReviewCache.FinishEffect(s.reviews, id, KeyOf);
      ReviewCache.StepKeepsSound(s.reviews, ReviewCache.Finish(id), KeyOf);
      var reviews := ReviewCache.Step(s.reviews, ReviewCache.Finish(id), KeyOf);
      AnsweredKeepsInvariant(st, oracle, log, s, reviews, id, s.reviews.callers[id].verdict, false);
    }
  }

  lemma FailKeepsInvariant(st: Settings, oracle: Oracle, log: seq<Reviewed>, s: System, id: nat)
    requires WellFormed(st, s) && Invariant(st, oracle, log, s)
    ensures Invariant(st, oracle, log, Step(st, oracle, s, Fail(id)))
  {
    hide RecordsOf, Authenticate, BeginAuthorization, Authorize, DecideOn, AccessKey;
    hide OnCourse, Resume, Need, ReviewCache.Step, ReviewCache.Sound, KeyOf, Undisturbed;
    if Pending(s, id).Some? && (id in s.reviews.callers || Pending(s, id).value.OidcQuestion?) {
      ReviewCache.FailEffect(s.reviews, id, KeyOf);
      ReviewCache.StepKeepsSound(s.reviews, ReviewCache.Fail(id), KeyOf);
      var reviews := ReviewCache.Step(s.reviews, ReviewCache.Fail(id), KeyOf);
      AnsweredKeepsInvariant(st, oracle, log, s, reviews, id, Failed, oracle(Pending(s, id).value) != Failed);
    }
  }

  lemma ArriveKeepsInvariant(st: Settings, oracle: Oracle, log: seq<Reviewed>, s: System, id: nat, req: Request)
    requires WellFormed(st, s) && Invariant(st, oracle, log, s)
    ensures Invariant(st, oracle, log, Step(st, oracle, s, Arrive(id, req)))
  {
    hide RecordsOf, Authenticate, BeginAuthorization, Authorize, DecideOn, AccessKey;
    MachineDecides(st, req, oracle);
    hide Undisturbed;
    hide Conclude, Asked, Decide, Start, Need, HonestCache, AllFaithful;
    KeepCallers(st, oracle, s, Step(st, oracle, s, Arrive(id, req)));
  }

  /** Callers stay truthful when neither they nor their requests are touched. */
  lemma KeepCallers(st: Settings, oracle: Oracle, s: System, s': System)
    requires forall c | c in s.reviews.callers :: TruthfulCaller(oracle, s, c)
    requires s'.reviews.callers == s.reviews.callers
    requires forall id | id in s.requests :: id in s'.requests && s'.requests[id] == s.requests[id]
    ensures forall c | c in s'.reviews.callers :: TruthfulCaller(oracle, s', c)
  {
    hide Need;
    forall c | c in s'.reviews.callers
      ensures TruthfulCaller(oracle, s', c)
    {
      assert TruthfulCaller(oracle, s, c);
    }
  }

  lemma OidcRequestIsNoCaller(oracle: Oracle, s: System, id: nat)
    requires forall c | c in s.reviews.callers :: TruthfulCaller(oracle, s, c)
    requires Pending(s, id).Some? && Pending(s, id).value.OidcQuestion?
    ensures s.reviews.callers == s.reviews.callers - {id}
  {
    hide Need;
    assert id in s.reviews.callers ==> TruthfulCaller(oracle, s, id);
  }

  lemma OidcKeepsInvariant(st: Settings, oracle: Oracle, log: seq<Reviewed>, s: System, id: nat)
    requires WellFormed(st, s) && Invariant(st, oracle, log, s)
    ensures Invariant(st, oracle, log, Step(st, oracle, s, AnswerOidc(id)))
  {
    hide RecordsOf, Authenticate, BeginAuthorization, Authorize, DecideOn, AccessKey;
    hide OnCourse, Resume, Need, HonestCache, Undisturbed;
    if Pending(s, id).Some? && Pending(s, id).value.OidcQuestion? {
      OidcRequestIsNoCaller(oracle, s, id);
      hide TruthfulCaller;
      AnsweredKeepsInvariant(st, oracle, log, s, s.reviews, id, oracle(Pending(s, id).value), false);
    }
  }

  lemma ReviewerKeepsInvariant(st: Settings, oracle: Oracle, log: seq<Reviewed>, s: System, a: Action)
    requires WellFormed(st, s) && Invariant(st, oracle, log, s) && (a.Tick? || a.Evaluate?)
    ensures Invariant(st, oracle, log, Step(st, oracle, s, a))
  {
    hide RecordsOf, Authenticate, BeginAuthorization, Authorize, DecideOn, AccessKey;
    hide OnCourse, Need, ReviewCache.Sound, KeyOf;
    var s' := Step(st, oracle, s, a);
    match a
    case Tick(to) =>
      ReviewCache.StepKeepsSound(s.reviews, ReviewCache.Tick(to), KeyOf);
      KeepCallers(st, oracle, s, s');
    case Evaluate(id) =>
      if s' != s {
        var answer := oracle(s.reviews.callers[id].question);
        ReviewCache.StepKeepsSound(s.reviews, ReviewCache.Evaluate(id, answer), KeyOf);
        assert TruthfulCaller(oracle, s, id);
        KeepOtherCallers(st, oracle, s, s', id);
      }
  }

  lemma LogOnlyGrows(st: Settings, oracle: Oracle, s: System, a: Action)
    requires WellFormed(st, s)
    ensures s.reviews.reviews <= Step(st, oracle, s, a).reviews.reviews
  {
    hide RecordsOf, Authenticate, BeginAuthorization, Authorize, DecideOn, AccessKey, Start, Resume, Need, KeyOf;
  }

  lemma {:induction false} EveryRunKeepsInvariant(st: Settings, oracle: Oracle, log: seq<Reviewed>, start: real, actions: seq<Action>)
    requires ValidSettings(st) && Run(st, oracle, start, actions).reviews.reviews <= log
    ensures Invariant(st, oracle, log, Run(st, oracle, start, actions))
  {
    hide RecordsOf, Authenticate, BeginAuthorization, Authorize, DecideOn, AccessKey;
    if actions != [] {
      var last := |actions| - 1;
      var s, a := Run(st, oracle, start, actions[..last]), actions[last];
      LogOnlyGrows(st, oracle, s, a);
      hide Step, Invariant;
      assert s.reviews.reviews <= Run(st, oracle, start, actions).reviews.reviews <= log;
      EveryRunKeepsInvariant(st, oracle, log, start, actions[..last]);
      match a
      case Ask(id) => AskKeepsInvariant(st, oracle, log, s, id);
      case Finish(id) => FinishKeepsInvariant(st, oracle, log, s, id);
      case Fail(id) => FailKeepsInvariant(st, oracle, log, s, id);
      case Arrive(id, req) => ArriveKeepsInvariant(st, oracle, log, s, id, req);
      case AnswerOidc(id) => OidcKeepsInvariant(st, oracle, log, s, id);
      case _ => ReviewerKeepsInvariant(st, oracle, log, s, a);
    }
  }

  /** A completed request has the outcome, and the identity, of a filter that asks the reviewer directly. */
  ghost predicate RefinesDirectFilter(st: Settings, oracle: Oracle, p: Progress)
    requires ValidSettings(st)
  {
    p.stage.Done? ==>
      if p.interrupted then p.stage.outcome == InternalError
      else p.stage.outcome == Decide(st, p.req, oracle)
  }

  /**
    End to end, of any reviewer and any run: a request refines the direct filter, whatever
    the other requests ask, unless a review of the run disturbs it.
   */
  lemma CachedFilterRefinesDirectFilter(st: Settings, oracle: Oracle, start: real, actions: seq<Action>, id: nat)
    requires ValidSettings(st) && id in Run(st, oracle, start, actions).requests
    ensures
      var s := Run(st, oracle, start, actions);
      Undisturbed(st, oracle, s.reviews.reviews, s.requests[id].req) ==> RefinesDirectFilter(st, oracle, s.requests[id])
  {
    hide RecordsOf, Authenticate, BeginAuthorization, Authorize, DecideOn, AccessKey;
    var s := Run(st, oracle, start, actions);
    EveryRunKeepsInvariant(st, oracle, s.reviews.reviews, start, actions);
    hide Run, Decide, Undisturbed;
    assert OnCourse(st, oracle, s.reviews.reviews, s.requests[id]);
  }

  // ---------------------------------------------------------------- when a request is undisturbed

  /** The reviewer's access verdicts depend on the seven key fields only. */
  ghost predicate KeyDetermines(oracle: Oracle)
  {
    forall a, b | KeyFields(a) == KeyFields(b) :: oracle(AccessQuestion(a)) == oracle(AccessQuestion(b))
  }

  predicate Proper(q: Question)
  {
    q.AccessQuestion? ==> PipeFree(q.attributes)
  }

  predicate ProperButPath(q: Question)
  {
    q.AccessQuestion? ==> PipeFreeButPath(q.attributes)
  }

  /** No record the direct filter would ask about for this request has a pipe in a key field. */
  ghost predicate ProperRequest(st: Settings, oracle: Oracle, req: Request)
    requires ValidSettings(st)
  {
    var asked := Asked(st, req, Start(st, req), oracle);
    forall i | 0 <= i < |asked| :: Proper(asked[i])
  }

  ghost predicate ProperButPathRequest(st: Settings, oracle: Oracle, req: Request)
    requires ValidSettings(st)
  {
    var asked := Asked(st, req, Start(st, req), oracle);
    forall i | 0 <= i < |asked| :: ProperButPath(asked[i])
  }

  /** A question without pipes shares its key only with questions that have its answer. */
  lemma SameKeySameAnswer(oracle: Oracle, p: Question, q: Question)
    requires KeyDetermines(oracle) && KeyOf(p) == KeyOf(q)
    requires Proper(p) || (ProperButPath(p) && ProperButPath(q))
    ensures oracle(p) == oracle(q)
  {
    if p.AccessQuestion? {
      if PipeFree(p.attributes) {
        KeyIsFaithful(p.attributes, q.attributes);
      } else {
        KeyIsFaithfulForAnyPath(p.attributes, q.attributes);
      }
      hide AccessKey, KeyFields;
    }
  }

  lemma ProperIsUndisturbed(st: Settings, oracle: Oracle, log: seq<Reviewed>, req: Request)
    requires ValidSettings(st) && KeyDetermines(oracle)
    requires ProperRequest(st, oracle, req)
          || (ProperButPathRequest(st, oracle, req) && forall j | 0 <= j < |log| :: ProperButPath(log[j].question))
    ensures Undisturbed(st, oracle, log, req)
  {
    hide Asked, Start, KeyDetermines, KeyOf, Proper, ProperButPath;
    var asked := Asked(st, req, Start(st, req), oracle);
    forall i, j | 0 <= i < |asked| && 0 <= j < |log| && KeyOf(log[j].question) == KeyOf(asked[i])
      ensures oracle(log[j].question) == oracle(asked[i])
    {
      SameKeySameAnswer(oracle, asked[i], log[j].question);
    }
  }

  /**
    With a reviewer that goes by the key fields, a request whose own records are pipe-free
    refines the direct filter, whatever every other request asks.
   */
  lemma PipeFreeRequestRefines(st: Settings, oracle: Oracle, start: real, actions: seq<Action>, id: nat)
    requires ValidSettings(st) && KeyDetermines(oracle) && id in Run(st, oracle, start, actions).requests
    requires ProperRequest(st, oracle, Run(st, oracle, start, actions).requests[id].req)
    ensures RefinesDirectFilter(st, oracle, Run(st, oracle, start, actions).requests[id])
  {
    hide *;
    CachedFilterRefinesDirectFilter(st, oracle, start, actions, id);
    var s := Run(st, oracle, start, actions);
    ProperIsUndisturbed(st, oracle, s.reviews.reviews, s.requests[id].req);
  }

  /** So does a request with any path, when the other key fields are pipe-free in all reviews of the run. */
  lemma AnyPathRequestRefines(st: Settings, oracle: Oracle, start: real, actions: seq<Action>, id: nat)
    requires ValidSettings(st) && KeyDetermines(oracle) && id in Run(st, oracle, start, actions).requests
    requires
      var s := Run(st, oracle, start, actions);
      && ProperButPathRequest(st, oracle, s.requests[id].req)
      && forall j | 0 <= j < |s.reviews.reviews| :: ProperButPath(s.reviews.reviews[j].question)
    ensures RefinesDirectFilter(st, oracle, Run(st, oracle, start, actions).requests[id])
  {
    hide *;
    CachedFilterRefinesDirectFilter(st, oracle, start, actions, id);
    var s := Run(st, oracle, start, actions);
    ProperIsUndisturbed(st, oracle, s.reviews.reviews, s.requests[id].req);
  }

  /** The reviewer's access verdicts depend on what is posted to it. */
  ghost predicate PostDetermines(oracle: Oracle)
  {
    forall a, b | AccessReviewOf(a) == AccessReviewOf(b) :: oracle(AccessQuestion(a)) == oracle(AccessQuestion(b))
  }

  /** No review of the log has the key fields of the question and other groups, kind, subresource or name. */
  ghost predicate NoTwin(log: seq<Reviewed>, q: Question)
  {
    q.AccessQuestion? ==>
      forall j | 0 <= j < |log| && log[j].question.AccessQuestion?
                 && KeyFields(log[j].question.attributes) == KeyFields(q.attributes) ::
        SameUnkeyedFields(log[j].question.attributes, q.attributes)
  }

  lemma NoTwinIsFaithful(oracle: Oracle, log: seq<Reviewed>, q: Question)
    requires PostDetermines(oracle) && Proper(q) && NoTwin(log, q)
    ensures Faithful(oracle, log, q)
  {
    forall j | 0 <= j < |log| && KeyOf(log[j].question) == KeyOf(q)
      ensures oracle(log[j].question) == oracle(q)
    {
      if q.AccessQuestion? {
        var a, b := q.attributes, log[j].question.attributes;
        KeyIsFaithful(a, b);
        SameKeySameReview(a, b);
        hide AccessKey, KeyFields, AccessReviewOf;
      }
    }
  }

  /** No record the direct filter would ask about for this request has a twin in the log. */
  ghost predicate RequestWithoutTwin(st: Settings, oracle: Oracle, log: seq<Reviewed>, req: Request)
    requires ValidSettings(st)
  {
    var asked := Asked(st, req, Start(st, req), oracle);
    forall i | 0 <= i < |asked| :: NoTwin(log, asked[i])
  }

  lemma WithoutTwinIsUndisturbed(st: Settings, oracle: Oracle, log: seq<Reviewed>, req: Request)
    requires ValidSettings(st) && PostDetermines(oracle)
    requires ProperRequest(st, oracle, req) && RequestWithoutTwin(st, oracle, log, req)
    ensures Undisturbed(st, oracle, log, req)
  {
    hide Asked, Start, PostDetermines, Proper, NoTwin, Faithful;
    var asked := Asked(st, req, Start(st, req), oracle);
    forall i | 0 <= i < |asked|
      ensures Faithful(oracle, log, asked[i])
    {
      NoTwinIsFaithful(oracle, log, asked[i]);
    }
  }

  /**
    With a reviewer that goes by what is posted, a request whose own records are pipe-free
    refines the direct filter, unless the run reviewed a record that agrees with one of them
    on the key and not on the fields the key leaves out.
   */
  lemma RequestWithoutTwinRefines(st: Settings, oracle: Oracle, start: real, actions: seq<Action>, id: nat)
    requires ValidSettings(st) && PostDetermines(oracle) && id in Run(st, oracle, start, actions).requests
    requires
      var s := Run(st, oracle, start, actions);
      ProperRequest(st, oracle, s.requests[id].req) && RequestWithoutTwin(st, oracle, s.reviews.reviews, s.requests[id].req)
    ensures RefinesDirectFilter(st, oracle, Run(st, oracle, start, actions).requests[id])
  {
    hide *;
    CachedFilterRefinesDirectFilter(st, oracle, start, actions, id);
    var s := Run(st, oracle, start, actions);
    WithoutTwinIsUndisturbed(st, oracle, s.reviews.reviews, s.requests[id].req);
  }

  // ---------------------------------------------------------------- the access cache on its own

  /** A reviewer of posts, as one of records. */
  function OfRecords(reviewer: ReviewRequest -> bool): Attributes -> bool
  {
    a => reviewer(AccessReviewOf(a))
  }

  /** The access cache serves only right verdicts, whatever the reviewer of posts. */
  ghost predicate AlwaysRightForPosts(ok: Attributes -> bool)
  {
    forall reviewer: ReviewRequest -> bool :: ReviewCache.AlwaysRight(ReviewCache.TTL, AccessKey, OfRecords(reviewer), ok)
  }

  /**
    When the access cache is exactly right for every reviewer of posts: if and only if no two
    of the records that may be asked about share a key and are not one post. For pipe-free
    records: share the key fields and differ in groups, kind or, for resources, subresource
    or name.
   */
  lemma AccessCacheIsRightIffNoTwins(ok: Attributes -> bool)
    ensures AlwaysRightForPosts(ok) <==>
              forall a, b | ok(a) && ok(b) && AccessKey(a) == AccessKey(b) :: AccessReviewOf(a) == AccessReviewOf(b)
    ensures (forall a | ok(a) :: PipeFree(a)) ==>
              (AlwaysRightForPosts(ok) <==>
                 forall a, b | ok(a) && ok(b) && KeyFields(a) == KeyFields(b) :: SameUnkeyedFields(a, b))
  {
    hide ReviewCache.AlwaysRight, AccessKey, AccessReviewOf, KeyFields, SameUnkeyedFields;
    if forall a, b | ok(a) && ok(b) && AccessKey(a) == AccessKey(b) :: AccessReviewOf(a) == AccessReviewOf(b) {
      forall reviewer: ReviewRequest -> bool
        ensures ReviewCache.AlwaysRight(ReviewCache.TTL, AccessKey, OfRecords(reviewer), ok)
      {
        ReviewCache.RightIffKeyDecides(ReviewCache.TTL, AccessKey, OfRecords(reviewer), ok);
      }
    }
    forall a, b | AlwaysRightForPosts(ok) && ok(a) && ok(b) && AccessKey(a) == AccessKey(b)
      ensures AccessReviewOf(a) == AccessReviewOf(b)
    {
      var reviewer: ReviewRequest -> bool := r => r == AccessReviewOf(a);
      assert ReviewCache.AlwaysRight(ReviewCache.TTL, AccessKey, OfRecords(reviewer), ok);
      ReviewCache.RightIffKeyDecides(ReviewCache.TTL, AccessKey, OfRecords(reviewer), ok);
      assert OfRecords(reviewer)(a) == OfRecords(reviewer)(b);
    }
    forall a, b | PipeFree(a)
      ensures AccessKey(a) == AccessKey(b) <==> KeyFields(a) == KeyFields(b)
      ensures AccessKey(a) == AccessKey(b) ==> (AccessReviewOf(a) == AccessReviewOf(b) <==> SameUnkeyedFields(a, b))
    {
      KeyIsFaithful(a, b);
      if AccessKey(a) == AccessKey(b) {
        SameKeySameReview(a, b);
      }
    }
  }
}
