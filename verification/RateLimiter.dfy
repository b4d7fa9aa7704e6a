/**
  The token bucket that every review request passes. Time and tokens are real numbers.
  The bucket is related to the history of all attempts ever made on it: it grants exactly
  the attempts that keep every time window within burst plus rate times length.
 */
module RateLimiter {

  /** Configured limits; a rate that is not positive switches the limiter off. */
  datatype Limits = Limits(qps: real, burst: real)

  /** The guarded pair: time of the last refill and tokens left then. */
  datatype Bucket = Bucket(at: real, tokens: real)

  datatype Attempt = Attempt(at: real, granted: bool)

  predicate ValidLimits(l: Limits)
  {
    l.qps > 0.0 && l.burst >= 1.0
  }

  function Full(l: Limits, start: real): Bucket
  {
    Bucket(start, l.burst)
  }

  /** Elapsed time, saturating at zero as instants do. */
  function Elapsed(from: real, to: real): real
  {
    if to < from then 0.0 else to - from
  }

  function Refill(l: Limits, b: Bucket, now: real): Bucket
  {
    var refilled := b.tokens + Elapsed(b.at, now) * l.qps;
    Bucket(now, if refilled <= l.burst then refilled else l.burst)
  }

  /** A reading that is not later brings no tokens. */
  lemma NoTimeNoTokens(l: Limits, b: Bucket, now: real)
    requires now <= b.at && b.tokens <= l.burst
    ensures Refill(l, b, now) == Bucket(now, b.tokens)
  {
  }

  predicate Grants(l: Limits, b: Bucket, now: real)
  {
    Refill(l, b, now).tokens >= 1.0
  }

  function AfterAttempt(l: Limits, b: Bucket, now: real): Bucket
  {
    var refilled := Refill(l, b, now);
    if refilled.tokens >= 1.0 then Bucket(now, refilled.tokens - 1.0) else refilled
  }

  /** How long a refused caller is told to sleep. */
  function Wait(l: Limits, b: Bucket, now: real): real
    requires l.qps > 0.0
  {
    (1.0 - Refill(l, b, now).tokens) / l.qps
  }

  lemma WaitIs(l: Limits, b: Bucket, now: real, w: real)
    requires l.qps > 0.0 && w == (1.0 - Refill(l, b, now).tokens) / l.qps
    ensures w == Wait(l, b, now)
  {
  }

  // ---------------------------------------------------------------- histories of attempts

  function Granted(h: seq<Attempt>): nat
  {
    if h == [] then 0 else Granted(h[..|h| - 1]) + if h[|h| - 1].granted then 1 else 0
  }

  /** The bucket after a history of attempts on a full bucket; each attempt is one locked step. */
  function After(l: Limits, start: real, h: seq<Attempt>): Bucket
  {
    if h == [] then Full(l, start)
    else AfterAttempt(l, After(l, start, h[..|h| - 1]), h[|h| - 1].at)
  }

  /** A history the bucket produces: times do not decrease and each verdict is the bucket's. */
  ghost predicate Produced(l: Limits, start: real, h: seq<Attempt>)
  {
    h == [] ||
    (var last := |h| - 1;
     && Produced(l, start, h[..last])
     && h[last].at >= After(l, start, h[..last]).at
     && (h[last].granted <==> Grants(l, After(l, start, h[..last]), h[last].at)))
  }

  /** What a window of that length may hold. */
  function Budget(l: Limits, length: real): real
  {
    l.burst + l.qps * length
  }

  /** What a window from attempt `j` to `now` still allows, given the grants within it. */
  function Room(l: Limits, h: seq<Attempt>, j: nat, now: real): real
    requires j <= |h|
  {
    var from := if j < |h| then h[j].at else now;
    Budget(l, now - from) - Granted(h[j..]) as real
  }

  /** One more grant at `now` keeps every window from an earlier attempt within its bound. */
  ghost predicate FitsEveryWindow(l: Limits, h: seq<Attempt>, now: real)
  {
    forall j: nat | j <= |h| :: Room(l, h, j, now) >= 1.0
  }

  // ---------------------------------------------------------------- the level is the worst window

  lemma RoomGrows(l: Limits, h: seq<Attempt>, j: nat, now: real, later: real)
    requires j < |h|
    ensures Room(l, h, j, later) == Room(l, h, j, now) + l.qps * (later - now)
  {
    var d, e := now - h[j].at, later - now;
    assert later - h[j].at == d + e;
    assert l.qps * (d + e) == l.qps * d + l.qps * e;
  }

  lemma RoomAfter(l: Limits, h: seq<Attempt>, a: Attempt, j: nat)
    requires j <= |h|
    ensures Room(l, h + [a], j, a.at) == Room(l, h, j, a.at) - if a.granted then 1.0 else 0.0
  {
    hide Budget;
    var h' := h + [a];
    assert h'[j..][..|h'[j..]| - 1] == h[j..];
    assert h'[j..][|h'[j..]| - 1] == a;
    assert h'[j] == if j < |h| then h[j] else a;
  }

  /** The tokens are below every window's room and reach one of them. */
  ghost predicate LevelIsWorstRoom(l: Limits, h: seq<Attempt>, level: real, now: real)
  {
    && (forall j: nat | j <= |h| :: level <= Room(l, h, j, now))
    && (exists j: nat | j <= |h| :: level == Room(l, h, j, now))
  }

  lemma RoomNow(l: Limits, h: seq<Attempt>, now: real)
    ensures Room(l, h, |h|, now) == l.burst
  {
    assert h[|h|..] == [];
    assert now - now == 0.0;
  }

  /** Refilling keeps the level the worst room, as time passes since the last attempt. */
  lemma RefilledIsWorstRoom(l: Limits, start: real, h: seq<Attempt>, now: real)
    requires ValidLimits(l) && Produced(l, start, h) && now >= After(l, start, h).at
    ensures LevelIsWorstRoom(l, h, Refill(l, After(l, start, h), now).tokens, now)
    decreases |h|, 1
  {
    var b := After(l, start, h);
    RoomNow(l, h, now);
    Scales(l.qps, b.at, now);
    if h == [] {
      assert Refill(l, b, now).tokens == Room(l, h, 0, now);
    } else {
      AttemptedIsWorstRoom(l, start, h);
      hide After, Produced;
      RefillIsWorstRoom(l, h, b, now);
    }
  }

  lemma Scales(q: real, from: real, to: real)
    requires q > 0.0 && from <= to
    ensures Elapsed(from, to) * q == q * (to - from) >= 0.0
  {
  }

  lemma RefillIsWorstRoom(l: Limits, h: seq<Attempt>, b: Bucket, now: real)
    requires ValidLimits(l) && h != [] && b.at <= now
    requires forall j: nat | j < |h| :: b.tokens <= Room(l, h, j, b.at)
    requires exists j: nat | j < |h| :: b.tokens == Room(l, h, j, b.at)
    ensures LevelIsWorstRoom(l, h, Refill(l, b, now).tokens, now)
  {
    Scales(l.qps, b.at, now);
    var gain := l.qps * (now - b.at);
    var level := Refill(l, b, now).tokens;
    assert level == if b.tokens + gain <= l.burst then b.tokens + gain else l.burst;
    RoomNow(l, h, now);
    forall j: nat | j < |h|
      ensures Room(l, h, j, now) == Room(l, h, j, b.at) + gain
    {
      RoomGrows(l, h, j, b.at, now);
    }
    hide Room, Refill;
    var j: nat :| j < |h| && b.tokens == Room(l, h, j, b.at);
    assert level == Room(l, h, j, now) || level == Room(l, h, |h|, now);
  }

  /** Right after an attempt, the level is the worst room among windows from attempts made. */
  lemma AttemptedIsWorstRoom(l: Limits, start: real, h: seq<Attempt>)
    requires ValidLimits(l) && Produced(l, start, h) && h != []
    ensures
      var b := After(l, start, h);
      && b.at == h[|h| - 1].at
      && (forall j: nat | j < |h| :: b.tokens <= Room(l, h, j, b.at))
      && (exists j: nat | j < |h| :: b.tokens == Room(l, h, j, b.at))
    decreases |h|, 0
  {
    var before, a := h[..|h| - 1], h[|h| - 1];
    assert h == before + [a];
    RefilledIsWorstRoom(l, start, before, a.at);
    var level := Refill(l, After(l, start, before), a.at).tokens;
    forall j: nat | j < |h|
      ensures After(l, start, h).tokens <= Room(l, h, j, a.at)
    {
      RoomAfter(l, before, a, j);
    }
    var j: nat :| j <= |before| && level == Room(l, before, j, a.at);
    RoomAfter(l, before, a, j);
  }

  /** Exactness: the bucket grants an attempt if and only if granting it fits every window. */
  lemma BucketIsExact(l: Limits, start: real, h: seq<Attempt>, now: real)
    requires ValidLimits(l) && Produced(l, start, h) && now >= After(l, start, h).at
    ensures Grants(l, After(l, start, h), now) <==> FitsEveryWindow(l, h, now)
  {
    RefilledIsWorstRoom(l, start, h, now);
  }

  /** The tokens never leave the range from zero to the burst. */
  lemma {:induction false} TokensStayInRange(l: Limits, start: real, h: seq<Attempt>)
    requires ValidLimits(l) && Produced(l, start, h)
    ensures 0.0 <= After(l, start, h).tokens <= l.burst
  {
    if h != [] {
      var before := h[..|h| - 1];
      TokensStayInRange(l, start, before);
      var b := After(l, start, before);
      assert (h[|h| - 1].at - b.at) * l.qps >= 0.0;
    }
  }

  // ---------------------------------------------------------------- consequences for whole runs

  lemma {:induction false} PrefixIsProduced(l: Limits, start: real, h: seq<Attempt>, n: nat)
    requires Produced(l, start, h) && n <= |h|
    ensures Produced(l, start, h[..n])
  {
    if n < |h| {
      PrefixIsProduced(l, start, h[..|h| - 1], n);
      assert h[..|h| - 1][..n] == h[..n];
    } else {
      assert h[..n] == h;
    }
  }

  lemma AfterTime(l: Limits, start: real, h: seq<Attempt>)
    ensures After(l, start, h).at == if h == [] then start else h[|h| - 1].at
  {
  }

  lemma {:induction false} TimesIncrease(l: Limits, start: real, h: seq<Attempt>, i: nat, j: nat)
    requires Produced(l, start, h) && i <= j < |h|
    ensures start <= h[i].at <= h[j].at
    decreases |h|
  {
    var before := h[..|h| - 1];
    AfterTime(l, start, before);
    if j < |h| - 1 {
      TimesIncrease(l, start, before, i, j);
    } else if before != [] {
      TimesIncrease(l, start, before, if i < |before| then i else |before| - 1, |before| - 1);
    }
  }

  /** Every run, every window between two of its attempts: the bound holds. */
  lemma {:induction false} EveryWindowIsBounded(l: Limits, start: real, h: seq<Attempt>, i: nat, k: nat)
    requires ValidLimits(l) && Produced(l, start, h) && i <= k < |h|
    ensures Granted(h[i..k + 1]) as real <= Budget(l, h[k].at - h[i].at)
    decreases k
  {
    hide Budget, After, Produced;
    BudgetGrows(l, 0.0, 0.0);
    TriedAt(l, start, h, k);
    PrefixIsProduced(l, start, h, k);
    var before := h[..k];
    var window := h[i..k + 1];
    assert window[..k - i] == h[i..k] == before[i..] && window[k - i] == h[k];
    if h[k].granted {
      BucketIsExact(l, start, before, h[k].at);
      assert Room(l, before, i, h[k].at) >= 1.0;
    } else if i < k {
      EveryWindowIsBounded(l, start, h, i, k - 1);
      TimesIncrease(l, start, h, k - 1, k);
      BudgetGrows(l, h[k - 1].at - h[i].at, h[k].at - h[i].at);
    } else {
      assert window[..0] == [];
    }
  }

  lemma BudgetGrows(l: Limits, a: real, b: real)
    requires ValidLimits(l) && a <= b
    ensures Budget(l, a) <= Budget(l, b)
    ensures 0.0 <= b ==> 1.0 <= Budget(l, b)
  {
  }

  /** Grants at times in an interval. */
  function GrantedWithin(h: seq<Attempt>, from: real, to: real): nat
  {
    if h == [] then 0
    else
      var last := h[|h| - 1];
      GrantedWithin(h[..|h| - 1], from, to) + if from <= last.at <= to && last.granted then 1 else 0
  }

  lemma {:induction false} SuffixWithin(h: seq<Attempt>, i: nat, from: real, to: real)
    requires i <= |h|
    requires forall m | 0 <= m < i :: h[m].at < from
    requires forall m | i <= m < |h| :: from <= h[m].at <= to
    ensures GrantedWithin(h, from, to) == Granted(h[i..])
  {
    if |h| == i {
      if h != [] {
        SuffixWithin(h[..|h| - 1], i - 1, from, to);
        assert h[..|h| - 1][i - 1..] == h[i..] == [];
      }
    } else {
      SuffixWithin(h[..|h| - 1], i, from, to);
      assert h[..|h| - 1][i..] == h[i..][..|h[i..]| - 1];
    }
  }

  /** The window bound for any interval of time whatsoever. */
  lemma {:induction false} EveryIntervalIsBounded(l: Limits, start: real, h: seq<Attempt>, from: real, to: real)
    requires ValidLimits(l) && Produced(l, start, h) && from <= to
    ensures GrantedWithin(h, from, to) as real <= Budget(l, to - from)
  {
    hide Budget;
    BudgetGrows(l, 0.0, to - from);
    if h != [] {
      var last := |h| - 1;
      if from <= h[last].at <= to {
        var i := last;
        while i > 0 && from <= h[i - 1].at
          invariant 0 <= i <= last && from <= h[i].at
        {
          i := i - 1;
        }
        forall m | 0 <= m < |h|
          ensures if m < i then h[m].at < from else from <= h[m].at <= to
        {
          if m < i {
            TimesIncrease(l, start, h, m, i - 1);
          } else {
            TimesIncrease(l, start, h, i, m);
            TimesIncrease(l, start, h, m, last);
          }
        }
        SuffixWithin(h, i, from, to);
        EveryWindowIsBounded(l, start, h, i, last);
        assert h[i..last + 1] == h[i..];
        BudgetGrows(l, h[last].at - h[i].at, to - from);
      } else {
        EveryIntervalIsBounded(l, start, h[..last], from, to);
      }
    }
  }

  /** All grants since construction are within burst plus rate times the time elapsed. */
  lemma TotalIsBounded(l: Limits, start: real, h: seq<Attempt>, now: real)
    requires ValidLimits(l) && Produced(l, start, h) && now >= After(l, start, h).at
    ensures Granted(h) as real <= Budget(l, now - start)
  {
    AfterTime(l, start, h);
    hide Budget;
    if h == [] {
      BudgetGrows(l, 0.0, now - start);
    } else {
      var last := |h| - 1;
      EveryWindowIsBounded(l, start, h, 0, last);
      assert h[0..last + 1] == h;
      TimesIncrease(l, start, h, 0, last);
      BudgetGrows(l, h[last].at - h[0].at, now - start);
    }
  }

  /** Refused attempts only refill: the level after them is that of one long refill. */
  lemma {:induction false} RefusalsOnlyRefill(l: Limits, start: real, h: seq<Attempt>, n: nat, now: real)
    requires ValidLimits(l) && Produced(l, start, h) && n <= |h| && now >= After(l, start, h).at
    requires forall i | n <= i < |h| :: !h[i].granted
    ensures After(l, start, h[..n]).at <= After(l, start, h).at
    ensures Refill(l, After(l, start, h), now).tokens == Refill(l, After(l, start, h[..n]), now).tokens
    decreases |h| - n
  {
    if n == |h| {
      assert h[..n] == h;
    } else {
      var before, a := h[..|h| - 1], h[|h| - 1];
      RefusalsOnlyRefill(l, start, before, n, a.at);
      RefusalsOnlyRefill(l, start, before, n, now);
      assert before[..n] == h[..n];
      RefillTwice(l, After(l, start, before), a.at, now);
    }
  }

  lemma RefillTwice(l: Limits, b: Bucket, mid: real, now: real)
    requires ValidLimits(l) && b.at <= mid <= now
    ensures Refill(l, Refill(l, b, mid), now) == Refill(l, b, now)
  {
    assert (now - b.at) * l.qps == (mid - b.at) * l.qps + (now - mid) * l.qps;
    assert (now - mid) * l.qps >= 0.0 && (mid - b.at) * l.qps >= 0.0;
  }

  /** When no one else is granted, a refused caller succeeds exactly from its waiting time on. */
  lemma WaitIsExact(l: Limits, b: Bucket, now: real, later: real)
    requires ValidLimits(l) && b.at <= now <= later && !Grants(l, b, now)
    ensures Wait(l, b, now) > 0.0
    ensures Grants(l, AfterAttempt(l, b, now), later) <==> later >= now + Wait(l, b, now)
  {
    var level, w := Refill(l, b, now).tokens, Wait(l, b, now);
    assert w * l.qps == 1.0 - level;
    assert (later - now) * l.qps - w * l.qps == (later - now - w) * l.qps;
    if later >= now + w {
      assert (later - now - w) * l.qps >= 0.0;
    } else {
      assert (later - now - w) * l.qps < 0.0;
    }
    assert w <= 0.0 ==> w * l.qps <= 0.0;
  }

  /**
    One attempt as a caller sees it: granted exactly when it fits every window, and after a
    refusal any attempt from the waiting time on fits, if no other comes in between.
   */
  lemma AttemptMade(l: Limits, start: real, h: seq<Attempt>, now: real)
    requires ValidLimits(l) && Produced(l, start, h) && now >= After(l, start, h).at
    ensures
      var b := After(l, start, h);
      var h' := h + [Attempt(now, Grants(l, b, now))];
      && Produced(l, start, h') && After(l, start, h') == AfterAttempt(l, b, now)
      && AfterAttempt(l, b, now).at == now
      && Granted(h') == Granted(h) + (if Grants(l, b, now) then 1 else 0)
      && (Grants(l, b, now) <==> FitsEveryWindow(l, h, now))
      && (!Grants(l, b, now) ==>
            Wait(l, b, now) > 0.0 && forall later | later >= now + Wait(l, b, now) :: FitsEveryWindow(l, h', later))
  {
    var b := After(l, start, h);
    var a := Attempt(now, Grants(l, b, now));
    var h' := h + [a];
    assert h'[..|h'| - 1] == h && h'[|h'| - 1] == a;
    BucketIsExact(l, start, h, now);
    if !a.granted {
      WaitIsExact(l, b, now, now);
      forall later | later >= now + Wait(l, b, now)
        ensures FitsEveryWindow(l, h', later)
      {
        WaitIsExact(l, b, now, later);
        hide FitsEveryWindow, Wait, Grants, AfterAttempt;
        BucketIsExact(l, start, h', later);
      }
    }
  }

  /**
    Progress under contention: after a refusal at attempt `i`, whichever attempt comes at or
    after its waiting time, that attempt or one in between is granted.
   */
  lemma SomeoneIsGranted(l: Limits, start: real, h: seq<Attempt>, i: nat, k: nat)
    requires ValidLimits(l) && Produced(l, start, h) && i < k < |h| && !h[i].granted
    requires h[k].at >= h[i].at + Wait(l, After(l, start, h[..i]), h[i].at)
    ensures exists m | i < m <= k :: h[m].granted
  {
    if forall m | i < m < k :: !h[m].granted {
      var before := h[..k];
      PrefixIsProduced(l, start, h, k + 1);
      assert h[..k + 1][..k] == before;
      TriedAt(l, start, h, i);
      AfterTime(l, start, before);
      assert before[..i + 1] == h[..i + 1];
      assert h[k].granted == Grants(l, After(l, start, before), h[k].at);
      TimesIncrease(l, start, h, k - 1, k);
      hide Produced, After;
      RefusalsOnlyRefill(l, start, before, i + 1, h[k].at);
      WaitIsExact(l, After(l, start, h[..i]), h[i].at, h[k].at);
      assert h[k].granted;
    }
  }

  /** Attempt `i` of a history, seen from the bucket before it. */
  lemma TriedAt(l: Limits, start: real, h: seq<Attempt>, i: nat)
    requires Produced(l, start, h) && i < |h|
    ensures
      var b := After(l, start, h[..i]);
      && b.at <= h[i].at && (h[i].granted <==> Grants(l, b, h[i].at))
      && After(l, start, h[..i + 1]) == AfterAttempt(l, b, h[i].at)
  {
    PrefixIsProduced(l, start, h, i + 1);
    assert h[..i + 1][..i] == h[..i];
  }
}
