/**
  The path cleaner of the endpoint matcher: a stack machine over the `/`-separated parts of
  a path. Its result is characterised independently of the machine, as the unique normal
  form of a small rewriting system on part lists.
 */
module PathCleaning {
  import opened Text

  /** A part that stays on the stack once pushed. */
  predicate Ordinary(part: string)
  {
    part != "" && part != "." && part != ".."
  }

  predicate AllOrdinary(parts: seq<string>)
  {
    forall i | 0 <= i < |parts| :: Ordinary(parts[i])
  }

  /** One iteration of the cleaner's loop; popping an empty stack does nothing. */
  function Step(stack: seq<string>, part: string): seq<string>
  {
    if part == "" || part == "." then stack
    else if part == ".." then if stack == [] then [] else stack[..|stack| - 1]
    else stack + [part]
  }

  function Resolve(stack: seq<string>, parts: seq<string>): seq<string>
    decreases |parts|
  {
    if parts == [] then stack else Resolve(Step(stack, parts[0]), parts[1..])
  }

  /** The cleaned path, as text. */
  function CleanPath(input: string): string
  {
    "/" + Join(Resolve([], Split(input, '/')), "/")
  }

  /** The cleaner itself, pushing to and popping from a stack of parts. */
  method Clean(input: string) returns (r: string)
    ensures r == CleanPath(input)
  {
    var split := Split(input, '/');
    var parts: seq<string> := [];
    for i := 0 to |split|
      invariant Resolve([], split) == Resolve(parts, split[i..])
    {
      var part := split[i];
      if part == "" || part == "." {
      } else if part == ".." {
        if |parts| > 0 {
          parts := parts[..|parts| - 1];
        }
      } else {
        parts := parts + [part];
      }
      assert split[i..][1..] == split[i + 1..];
    }
    r := "/" + Join(parts, "/");
  }

  // ---------------------------------------------------------------- the stack machine

  lemma {:induction false} ResolveAppend(stack: seq<string>, a: seq<string>, b: seq<string>)
    ensures Resolve(stack, a + b) == Resolve(Resolve(stack, a), b)
    decreases |a|
  {
    if a == [] {
      assert a + b == b;
    } else {
      ResolveAppend(Step(stack, a[0]), a[1..], b);
      assert (a + b)[1..] == a[1..] + b;
    }
  }

  lemma {:induction false} ResolveOrdinary(stack: seq<string>, parts: seq<string>)
    requires AllOrdinary(parts)
    ensures Resolve(stack, parts) == stack + parts
    decreases |parts|
  {
    if parts == [] {
      assert stack + parts == stack;
    } else {
      ResolveOrdinary(stack + [parts[0]], parts[1..]);
      assert stack + [parts[0]] + parts[1..] == stack + parts;
    }
  }

  lemma {:induction false} ResolveKeepsOrdinary(stack: seq<string>, parts: seq<string>)
    requires AllOrdinary(stack)
    ensures AllOrdinary(Resolve(stack, parts))
    decreases |parts|
  {
    if parts != [] {
      ResolveKeepsOrdinary(Step(stack, parts[0]), parts[1..]);
    }
  }

  lemma {:induction false} ResolveKeepsFree(stack: seq<string>, parts: seq<string>, c: char)
    requires AllFree(stack, c) && AllFree(parts, c)
    ensures AllFree(Resolve(stack, parts), c)
    decreases |parts|
  {
    if parts != [] {
      ResolveKeepsFree(Step(stack, parts[0]), parts[1..], c);
    }
  }

  /** What the cleaner leaves on its stack for `input`. */
  function CleanParts(input: string): seq<string>
  {
    Resolve([], Split(input, '/'))
  }

  lemma CleanPartsAreOrdinary(input: string)
    ensures AllOrdinary(CleanParts(input)) && AllFree(CleanParts(input), '/')
  {
    ResolveKeepsOrdinary([], Split(input, '/'));
    SplitPartsAreFree(input, '/');
    ResolveKeepsFree([], Split(input, '/'), '/');
  }

  /** The segments of a cleaned path: the root is two empty segments, any other path one. */
  lemma SegmentsOfCleanPath(input: string)
    ensures Split(CleanPath(input), '/')
         == [""] + if CleanParts(input) == [] then [""] else CleanParts(input)
  {
    CleanPartsAreOrdinary(input);
    var parts := CleanParts(input);
    SplitConcat("", Join(parts, "/"), '/');
    assert "" + "/" + Join(parts, "/") == CleanPath(input);
    if parts != [] {
      SplitJoin(parts, '/');
    }
  }

  lemma CleanPartsOfCleanPath(input: string)
    ensures CleanParts(CleanPath(input)) == CleanParts(input)
  {
    var parts := CleanParts(input);
    CleanPartsAreOrdinary(input);
    SegmentsOfCleanPath(input);
    var tail := if parts == [] then [""] else parts;
    ResolveAppend([], [""], tail);
    if parts != [] {
      ResolveOrdinary([], parts);
    }
  }

  /** Cleaning is idempotent. */
  lemma CleanIsIdempotent(input: string)
    ensures CleanPath(CleanPath(input)) == CleanPath(input)
  {
    CleanPartsOfCleanPath(input);
  }

  /** Cleaning is compositional: a prefix may be cleaned on its own first. */
  lemma CleanIsCompositional(a: string, b: string)
    ensures CleanPath(a + "/" + b) == CleanPath(CleanPath(a) + "/" + b)
  {
    SplitConcat(a, b, '/');
    SplitConcat(CleanPath(a), b, '/');
    ResolveAppend([], Split(a, '/'), Split(b, '/'));
    ResolveAppend([], Split(CleanPath(a), '/'), Split(b, '/'));
    CleanPartsOfCleanPath(a);
  }

  // ---------------------------------------------------------------- trim and restore root

  /** What the matcher does to a cleaned path: drop trailing slashes, restore the root. */
  function TrimToRoot(path: string): string
  {
    var trimmed := TrimEnd(path, '/');
    if trimmed == "" then "/" else trimmed
  }

  lemma {:induction false} JoinEndsInLastPart(parts: seq<string>, sep: string)
    requires |parts| > 0
    ensures EndsWith(Join(parts, sep), parts[|parts| - 1])
  {
    if |parts| > 1 {
      JoinEndsInLastPart(parts[1..], sep);
      var last := parts[|parts| - 1];
      var rest := Join(parts[1..], sep);
      var all := Join(parts, sep);
      assert all == (parts[0] + sep) + rest;
      assert all[|all| - |last|..] == rest[|rest| - |last|..];
    }
  }

  /** The trimming after the cleaner never changes a cleaned path. */
  lemma TrimLeavesCleanPath(input: string)
    ensures TrimToRoot(CleanPath(input)) == CleanPath(input)
  {
    var parts := CleanParts(input);
    var path := CleanPath(input);
    CleanPartsAreOrdinary(input);
    if parts == [] {
      assert path == "/";
      assert path[..|path| - 1] == "";
    } else {
      JoinEndsInLastPart(parts, "/");
      var last := parts[|parts| - 1];
      assert Free(last, '/') && last != "";
      var joined := Join(parts, "/");
      assert path[|path| - 1] == joined[|joined| - 1] == joined[|joined| - |last|..][|last| - 1] == last[|last| - 1];
    }
  }

  // ---------------------------------------------------------------- the normal form

  /** `q` is `p` without the parts from `from` up to `to`. */
  ghost predicate Cut(p: seq<string>, q: seq<string>, from: nat, to: nat)
  {
    from <= to <= |p| && q == p[..from] + p[to..]
  }

  /** Where a list may be shortened: an empty or `.` part, a name undone by `..`, `..` at the root. */
  predicate Redex(p: seq<string>, from: nat, to: nat)
  {
    || (to == from + 1 <= |p| && (p[from] == "" || p[from] == "."))
    || (to == from + 2 <= |p| && Ordinary(p[from]) && p[from + 1] == "..")
    || (from == 0 && to == 1 <= |p| && p[0] == "..")
  }

  ghost predicate Rewrites(p: seq<string>, q: seq<string>)
  {
    exists from: nat, to: nat :: Redex(p, from, to) && Cut(p, q, from, to)
  }

  ghost predicate Irreducible(p: seq<string>)
  {
    forall from: nat, to: nat :: !Redex(p, from, to)
  }

  /** A chain of rewriting steps. */
  ghost predicate Derivation(chain: seq<seq<string>>)
  {
    |chain| > 0 && forall i | 0 < i < |chain| :: Rewrites(chain[i - 1], chain[i])
  }

  lemma {:induction false} RedexIsNeutral(p: seq<string>, from: nat, to: nat)
    requires Redex(p, from, to)
    ensures Resolve([], p[..from] + p[to..]) == Resolve([], p)
  {
    var before := Resolve([], p[..from]);
    var redex := p[from..to];
    assert p == p[..from] + (redex + p[to..]);
    ResolveAppend([], p[..from], redex + p[to..]);
    ResolveAppend(before, redex, p[to..]);
    ResolveAppend([], p[..from], p[to..]);
    if to == from + 2 && Ordinary(p[from]) && p[from + 1] == ".." {
      assert redex == [p[from]] + [p[from + 1]];
      ResolveAppend(before, [p[from]], [".."]);
      assert (before + [p[from]])[..|before|] == before;
    } else {
      assert redex == [p[from]];
    }
  }

  lemma {:induction false} IrreducibleIsOrdinary(p: seq<string>)
    ensures Irreducible(p) <==> AllOrdinary(p)
  {
    if Irreducible(p) {
      for i := 0 to |p|
        invariant AllOrdinary(p[..i])
      {
        assert !Redex(p, i, i + 1);
        assert i > 0 ==> Ordinary(p[..i][i - 1]) && !Redex(p, i - 1, i + 1);
        assert p[..i + 1] == p[..i] + [p[i]];
      }
      assert p[..|p|] == p;
    }
  }

  /** Soundness: every way of rewriting to an end gives the cleaner's stack. */
  lemma {:induction false} NormalFormIsUnique(chain: seq<seq<string>>)
    requires Derivation(chain) && Irreducible(chain[|chain| - 1])
    ensures chain[|chain| - 1] == Resolve([], chain[0])
  {
    var last := chain[|chain| - 1];
    if |chain| == 1 {
      IrreducibleIsOrdinary(last);
      ResolveOrdinary([], last);
      assert [] + last == last;
    } else {
      assert Rewrites(chain[0], chain[1]);
      var from: nat, to: nat :| Redex(chain[0], from, to) && Cut(chain[0], chain[1], from, to);
      RedexIsNeutral(chain[0], from, to);
      assert Derivation(chain[1..]) by {
        forall i | 0 < i < |chain[1..]| ensures Rewrites(chain[1..][i - 1], chain[1..][i]) {
          assert Rewrites(chain[i], chain[i + 1]);
        }
      }
      NormalFormIsUnique(chain[1..]);
    }
  }

  /** Completeness: the cleaner's stack is always reached. */
  lemma {:induction false} NormalFormIsReached(p: seq<string>) returns (chain: seq<seq<string>>)
    ensures Derivation(chain) && chain[0] == p
    ensures chain[|chain| - 1] == Resolve([], p) && Irreducible(Resolve([], p))
    decreases |p|
  {
    ResolveKeepsOrdinary([], p);
    IrreducibleIsOrdinary(Resolve([], p));
    if Irreducible(p) {
      chain := [p];
      NormalFormIsUnique(chain);
    } else {
      var from: nat, to: nat :| Redex(p, from, to);
      var q := p[..from] + p[to..];
      RedexIsNeutral(p, from, to);
      assert Cut(p, q, from, to);
      assert Rewrites(p, q);
      var rest := NormalFormIsReached(q);
      chain := [p] + rest;
      forall i | 0 < i < |chain| ensures Rewrites(chain[i - 1], chain[i]) {
        if i > 1 {
          assert Rewrites(rest[i - 2], rest[i - 1]);
        }
      }
    }
  }
}
