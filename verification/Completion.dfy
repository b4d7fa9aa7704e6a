/**
  That the runs of the shared caches get anywhere: whatever has happened, any request under
  way can be brought to its end without a failure of its own and without the others.
 */
module Completion {
  import opened Wrappers
  import opened Environment
  import opened Authorization
  import opened Pipeline
  import opened EndToEnd
  import ReviewCache

  /** Between two states of a run only request `id` changed, and not by being interrupted. */
  ghost predicate OnlyItMoved(s: System, s': System, id: nat)
  {
    && id in s.requests && id in s'.requests && s'.requests == s.requests[id := s'.requests[id]]
    && s'.requests[id].req == s.requests[id].req && s'.requests[id].interrupted == s.requests[id].interrupted
  }

  /** It moved by an answer to its question. */
  ghost predicate Moved(st: Settings, s: System, s': System, id: nat)
    requires EndToEnd.WellFormed(st, s) && Pending(s, id).Some?
  {
    && OnlyItMoved(s, s', id) && s'.reviews.now == s.reviews.now
    && exists answer :: s'.requests[id].stage == Resume(st, s.requests[id].req, s.requests[id].stage, answer)
  }

  /** Time passes for everyone, and nothing else happens. */
  lemma TimePasses(st: Settings, oracle: Oracle, s: System, to: real)
    requires EndToEnd.WellFormed(st, s)
    ensures
      var s' := Step(st, oracle, s, Tick(to));
      && s'.reviews.now == (if to < s.reviews.now then s.reviews.now else to)
      && s'.requests == s.requests && s'.reviews.cache == s.reviews.cache && s'.reviews.callers == s.reviews.callers
  {
  }

  /** A caller that the reviewer has not answered yet is told its answer, or that there is none. */
  lemma CallerMoves(st: Settings, oracle: Oracle, s: System, id: nat)
    requires EndToEnd.WellFormed(st, s) && id in s.reviews.callers && TruthfulCaller(oracle, s, id)
    ensures
      if s.reviews.callers[id].Evaluated? then Moved(st, s, Step(st, oracle, s, Finish(id)), id)
      else if oracle(s.reviews.callers[id].question) == Failed then Moved(st, s, Step(st, oracle, s, Fail(id)), id)
      else Moved(st, s, Step(st, oracle, Step(st, oracle, s, Evaluate(id)), Finish(id)), id)
  {
    hide Resume, KeyOf, Need;
  }

  /** A request whose question nobody has asked yet asks it, and is answered at once unless it misses. */
  lemma AskMoves(st: Settings, oracle: Oracle, s: System, id: nat)
    requires EndToEnd.WellFormed(st, s) && id !in s.reviews.callers && Pending(s, id).Some?
    ensures
      if Pending(s, id).value.OidcQuestion? then Moved(st, s, Step(st, oracle, s, AnswerOidc(id)), id)
      else
        var s' := Step(st, oracle, s, Ask(id));
        if id in s'.reviews.callers then s'.requests == s.requests && s'.reviews.now == s.reviews.now
        else Moved(st, s, s', id)
  {
    hide Resume, KeyOf, Need;
  }

  /** What makes a caller move. */
  function CallerActions(oracle: Oracle, s: System, id: nat): seq<Action>
    requires id in s.reviews.callers
  {
    if s.reviews.callers[id].Evaluated? then [Finish(id)]
    else if oracle(s.reviews.callers[id].question) == Failed then [Fail(id)]
    else [Evaluate(id), Finish(id)]
  }

  lemma CallersAreTruthful(st: Settings, oracle: Oracle, start: real, actions: seq<Action>, id: nat)
    requires ValidSettings(st) && id in Run(st, oracle, start, actions).reviews.callers
    ensures TruthfulCaller(oracle, Run(st, oracle, start, actions), id)
  {
    hide Run, TruthfulCaller, HonestCache, OnCourse;
    EveryRunKeepsInvariant(st, oracle, Run(st, oracle, start, actions).reviews.reviews, start, actions);
  }

  lemma MoveCaller(st: Settings, oracle: Oracle, start: real, actions: seq<Action>, id: nat)
    requires ValidSettings(st) && id in Run(st, oracle, start, actions).reviews.callers
    ensures
      var s := Run(st, oracle, start, actions);
      && Pending(s, id).Some?
      && Moved(st, s, Run(st, oracle, start, actions + CallerActions(oracle, s, id)), id)
  {
    var s := Run(st, oracle, start, actions);
    CallersAreTruthful(st, oracle, start, actions, id);
    hide Run, Step, Moved, KeyOf;
    CallerMoves(st, oracle, s, id);
    var rest := CallerActions(oracle, s, id);
    RunMore(st, oracle, start, actions, rest[0]);
    if |rest| == 2 {
      RunMore(st, oracle, start, actions + [rest[0]], rest[1]);
      assert actions + [rest[0]] + [rest[1]] == actions + rest;
    }
  }

  /** One answer for a request under way. */
  lemma MoveOn(st: Settings, oracle: Oracle, start: real, actions: seq<Action>, id: nat) returns (more: seq<Action>)
    requires ValidSettings(st) && Pending(Run(st, oracle, start, actions), id).Some?
    ensures Moved(st, Run(st, oracle, start, actions), Run(st, oracle, start, actions + more), id)
  {
    var s := Run(st, oracle, start, actions);
    if id in s.reviews.callers {
      more := CallerActions(oracle, s, id);
      MoveCaller(st, oracle, start, actions, id);
    } else {
      var a := if Pending(s, id).value.OidcQuestion? then AnswerOidc(id) else Ask(id);
      AskMoves(st, oracle, s, id);
      RunMore(st, oracle, start, actions, a);
      hide Run, Step, Need, Resume;
      more := [a];
      var asked := Run(st, oracle, start, actions + [a]);
      if id in asked.reviews.callers && a.Ask? {
        MoveCaller(st, oracle, start, actions + [a], id);
        more := [a] + CallerActions(oracle, asked, id);
        assert actions + more == actions + [a] + CallerActions(oracle, asked, id);
      }
    }
  }

  ghost predicate FinishedAt(s: System, s': System, id: nat, time: real)
  {
    OnlyItMoved(s, s', id) && s'.requests[id].stage.Done? && s'.reviews.now == time
  }

  /** Each answer brings a request closer to its end. */
  lemma MovesForward(st: Settings, s: System, s': System, id: nat)
    requires EndToEnd.WellFormed(st, s) && Pending(s, id).Some? && Moved(st, s, s', id)
    ensures
      var stage, stage' := s.requests[id].stage, s'.requests[id].stage;
      Tier(stage') < Tier(stage) || (Tier(stage') == Tier(stage) && Left(stage') < Left(stage))
  {
    hide Resume;
  }

  lemma FinishedLater(s: System, mid: System, s': System, id: nat, time: real)
    requires OnlyItMoved(s, mid, id) && FinishedAt(mid, s', id, time)
    ensures FinishedAt(s, s', id, time)
  {
    assert s.requests[id := mid.requests[id]][id := s'.requests[id]] == s.requests[id := s'.requests[id]];
  }

  /** A request that is done only has to wait. */
  lemma DoneFinishes(st: Settings, oracle: Oracle, start: real, actions: seq<Action>, id: nat, time: real)
    requires ValidSettings(st) && id in Run(st, oracle, start, actions).requests
    requires Run(st, oracle, start, actions).requests[id].stage.Done? && Run(st, oracle, start, actions).reviews.now <= time
    ensures FinishedAt(Run(st, oracle, start, actions), Run(st, oracle, start, actions + [Tick(time)]), id, time)
  {
    RunMore(st, oracle, start, actions, Tick(time));
    hide Run, Step;
    var s := Run(st, oracle, start, actions);
    TimePasses(st, oracle, s, time);
    assert s.requests == s.requests[id := s.requests[id]];
  }

  /**
    After any run, a request under way can be brought to its end by any later time: it is then
    done, interrupted only if it was so before, and no other request has been touched.
   */
  lemma {:induction false} EveryRequestCanFinish(st: Settings, oracle: Oracle, start: real, actions: seq<Action>, id: nat, time: real)
    requires ValidSettings(st) && id in Run(st, oracle, start, actions).requests
    requires Run(st, oracle, start, actions).reviews.now <= time
    ensures exists more: seq<Action> ::
              FinishedAt(Run(st, oracle, start, actions), Run(st, oracle, start, actions + more), id, time)
    decreases
      Tier(Run(st, oracle, start, actions).requests[id].stage), Left(Run(st, oracle, start, actions).requests[id].stage)
  {
    hide Run, FinishedAt, Resume, Tier, Left;
    var s := Run(st, oracle, start, actions);
    if s.requests[id].stage.Done? {
      DoneFinishes(st, oracle, start, actions, id, time);
    } else {
      var first := MoveOn(st, oracle, start, actions, id);
      var mid := Run(st, oracle, start, actions + first);
      MovesForward(st, s, mid, id);
      EveryRequestCanFinish(st, oracle, start, actions + first, id, time);
      var rest :| FinishedAt(mid, Run(st, oracle, start, actions + first + rest), id, time);
      assert actions + first + rest == actions + (first + rest);
      FinishedLater(s, mid, Run(st, oracle, start, actions + (first + rest)), id, time);
    }
  }
}
