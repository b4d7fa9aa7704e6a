/** What it means for a list to hold, in order, exactly what some elements of another one are picked as. */
module Selections {
  import opened Wrappers

  /** `at` lists, in order, all positions of `source` that are picked, and `result` what they are picked as. */
  ghost predicate Selects<T, U>(at: seq<nat>, source: seq<T>, result: seq<U>, pick: T -> Option<U>)
  {
    && |at| == |result|
    && (forall k | 0 <= k < |at| :: at[k] < |source| && pick(source[at[k]]) == Some(result[k]))
    && (forall j, k | 0 <= j < k < |at| :: at[j] < at[k])
    && (forall i | 0 <= i < |source| && pick(source[i]).Some? :: i in at)
  }

  ghost predicate IsSelection<T, U>(source: seq<T>, result: seq<U>, pick: T -> Option<U>)
  {
    exists at :: Selects(at, source, result, pick)
  }

  function Later(at: seq<nat>): (r: seq<nat>)
    ensures |r| == |at| && forall k | 0 <= k < |at| :: r[k] == at[k] + 1
  {
    seq(|at|, k requires 0 <= k < |at| => at[k] + 1)
  }

  lemma SelectsNone<T, U>(pick: T -> Option<U>)
    ensures IsSelection([], [], pick)
  {
    assert Selects([], [], [], pick);
  }

  /** A selection of the rest is one of the whole, after what the first element is picked as. */
  lemma SelectsMore<T, U>(source: seq<T>, rest: seq<U>, pick: T -> Option<U>)
    requires source != [] && IsSelection(source[1..], rest, pick)
    ensures IsSelection(source, match pick(source[0]) case Some(u) => [u] + rest case None => rest, pick)
  {
    var at :| Selects(at, source[1..], rest, pick);
    LaterPositions(at, source, rest, pick);
    match pick(source[0])
    case Some(u) =>
      FirstPosition(Later(at), source, u, rest, pick);
    case None =>
      hide Selects;
      assert Selects(Later(at), source, rest, pick) by { OnlyLaterPositions(Later(at), source, rest, pick); }
  }

  /** The clauses of a selection that starts behind the first element. */
  ghost predicate SelectsBehind<T, U>(at: seq<nat>, source: seq<T>, result: seq<U>, pick: T -> Option<U>)
  {
    && |at| == |result|
    && (forall k | 0 <= k < |at| :: 0 < at[k] < |source| && pick(source[at[k]]) == Some(result[k]))
    && (forall j, k | 0 <= j < k < |at| :: at[j] < at[k])
    && (forall i | 0 < i < |source| && pick(source[i]).Some? :: i in at)
  }

  lemma LaterPositions<T, U>(at: seq<nat>, source: seq<T>, rest: seq<U>, pick: T -> Option<U>)
    requires source != [] && Selects(at, source[1..], rest, pick)
    ensures SelectsBehind(Later(at), source, rest, pick)
  {
    var later := Later(at);
    forall k | 0 <= k < |later|
      ensures 0 < later[k] < |source| && pick(source[later[k]]) == Some(rest[k])
    {
      assert source[1..][at[k]] == source[later[k]];
    }
    forall i | 0 < i < |source| && pick(source[i]).Some?
      ensures i in later
    {
      assert source[1..][i - 1] == source[i];
      var k :| 0 <= k < |at| && at[k] == i - 1;
      assert later[k] == i;
    }
  }

  lemma OnlyLaterPositions<T, U>(at: seq<nat>, source: seq<T>, rest: seq<U>, pick: T -> Option<U>)
    requires source != [] && SelectsBehind(at, source, rest, pick) && pick(source[0]).None?
    ensures Selects(at, source, rest, pick)
  {
    forall i | 0 <= i < |source| && pick(source[i]).Some?
      ensures i in at
    {
      assert i != 0;
    }
  }

  lemma FirstPosition<T, U>(at: seq<nat>, source: seq<T>, u: U, rest: seq<U>, pick: T -> Option<U>)
    requires source != [] && SelectsBehind(at, source, rest, pick) && pick(source[0]) == Some(u)
    ensures Selects([0] + at, source, [u] + rest, pick)
  {
    var whole, result := [0] + at, [u] + rest;
    forall k | 0 <= k < |whole|
      ensures whole[k] < |source| && pick(source[whole[k]]) == Some(result[k])
    {
      if k > 0 {
        assert whole[k] == at[k - 1] && result[k] == rest[k - 1];
      }
    }
    forall i | 0 <= i < |source| && pick(source[i]).Some?
      ensures i in whole
    {
      if i == 0 {
        assert whole[0] == i;
      } else {
        assert i in at;
      }
    }
    assert forall j, k | 0 <= j < k < |whole| :: whole[j] < whole[k];
  }
}
