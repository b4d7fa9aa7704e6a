/**
  The allow and ignore lists read a path as it was sent, while the endpoint matcher cleans
  it first. Here is exactly for which patterns that makes no difference: for which a path
  that matches still does once it is cleaned.
 */
module RawPaths {
  import opened Text
  import opened PathCleaning
  import opened PathFilter

  predicate Absolute(path: string)
  {
    StartsWith(path, "/")
  }

  /** Cleaning a path never takes it out of the pattern. */
  ghost predicate SurvivesCleaning(pattern: string)
  {
    forall path | Absolute(path) && PathMatches(pattern, path) :: PathMatches(pattern, CleanPath(path))
  }

  /** What every absolute path with this end keeps when it is cleaned. */
  predicate StableEnd(suffix: string)
  {
    var parts := Split(suffix, '/');
    parts[0] != "." && parts[0] != ".." && AllOrdinary(parts[1..])
  }

  /** A literal pattern survives exactly when it is clean itself, or no absolute path. */
  lemma LiteralSurvivesIff(pattern: string)
    requires |Split(pattern, '*')| != 2
    ensures SurvivesCleaning(pattern) <==> !Absolute(pattern) || CleanPath(pattern) == pattern
  {
    forall path
      ensures PathMatches(pattern, path) <==> path == pattern
    {
      OtherPatternsAreLiteral(pattern, path);
    }
    hide PathMatches, CleanPath;
  }

  // ---------------------------------------------------------------- the end of a cleaned path

  /** The parts of a text made of two: the last of the one and the first of the other become one. */
  function Merge(a: seq<string>, b: seq<string>): seq<string>
    requires |a| >= 1 && |b| >= 1
  {
    a[..|a| - 1] + [a[|a| - 1] + b[0]] + b[1..]
  }

  lemma {:induction false} SplitMerges(front: string, suffix: string)
    ensures Split(front + suffix, '/') == Merge(Split(front, '/'), Split(suffix, '/'))
  {
    var a, b := Split(front, '/'), Split(suffix, '/');
    if front == "" {
      assert front + suffix == suffix;
      MergeNothing(b);
    } else {
      SplitMerges(front[1..], suffix);
      var whole := front + suffix;
      assert whole[1..] == front[1..] + suffix && whole[0] == front[0];
      SplitStep(whole, '/');
      SplitStep(front, '/');
      hide Split, Merge;
      MergeLater(front[0], Split(front[1..], '/'), b);
    }
  }

  lemma MergeNothing(b: seq<string>)
    requires |b| >= 1
    ensures Merge([""], b) == b
  {
    assert "" + b[0] == b[0];
    assert [""][..0] == [];
  }

  lemma MergeLater(x: char, rest: seq<string>, b: seq<string>)
    requires |rest| >= 1 && |b| >= 1
    ensures Merge([""] + rest, b) == [""] + Merge(rest, b)
    ensures Merge(Glue(x, rest), b) == Glue(x, Merge(rest, b))
  {
    assert ([""] + rest)[..|rest|] == [""] + rest[..|rest| - 1];
    if |rest| == 1 {
      assert [x] + (rest[0] + b[0]) == [x] + rest[0] + b[0];
    }
  }

  /** Text that ends another's last parts are its own from the second on. */
  lemma PartsOfEnd(front: string, suffix: string)
    ensures
      var all, parts := Split(front + suffix, '/'), Split(suffix, '/');
      |all| >= |parts| && all[|all| - |parts| + 1..] == parts[1..]
  {
    SplitMerges(front, suffix);
    hide Split;
  }

  /** A cleaned path ends in ordinary parts, or it is the root. */
  lemma CleanEndsOrdinary(path: string, suffix: string)
    requires EndsWith(CleanPath(path), suffix) && CleanParts(path) != []
    ensures AllOrdinary(Split(suffix, '/')[1..])
  {
    var clean := CleanPath(path);
    var front := clean[..|clean| - |suffix|];
    assert clean == front + suffix;
    PartsOfEnd(front, suffix);
    SegmentsOfCleanPath(path);
    CleanPartsAreOrdinary(path);
    var all, parts := Split(clean, '/'), Split(suffix, '/');
    hide Split, CleanPath, CleanParts, Ordinary;
    forall i | 0 <= i < |parts[1..]|
      ensures Ordinary(parts[1..][i])
    {
      assert parts[1..][i] == all[|all| - |parts| + 1..][i] == all[|all| - |parts| + 1 + i];
    }
  }

  /** The cleaned path is the root or starts with its first part. */
  lemma CleanStarts(path: string)
    ensures CleanParts(path) == [] ==> CleanPath(path) == "/"
    ensures CleanParts(path) != [] ==> StartsWith(CleanPath(path), "/" + CleanParts(path)[0])
  {
  }

  /** The text of a cleaned path ends with the join of its last parts, behind a slash. */
  lemma CleanEnds(path: string, front: seq<string>, back: seq<string>)
    requires CleanParts(path) == front + back && back != []
    ensures EndsWith(CleanPath(path), "/" + Join(back, "/"))
  {
    var clean, tail := CleanPath(path), "/" + Join(back, "/");
    if front == [] {
      assert front + back == back;
      assert clean == tail;
    } else {
      JoinConcat(front, back, "/");
      assert clean == ("/" + Join(front, "/")) + tail;
    }
  }

  // ---------------------------------------------------------------- stable ends stay

  /** What is on the stack when a text ends in ordinary parts. */
  lemma PartsBeforeEnd(front: string, suffix: string) returns (stack: seq<string>, x: string)
    requires AllOrdinary(Split(suffix, '/')[1..])
    ensures CleanParts(front + suffix) == Step(stack, x + Split(suffix, '/')[0]) + Split(suffix, '/')[1..]
  {
    var a, b := Split(front, '/'), Split(suffix, '/');
    SplitMerges(front, suffix);
    stack, x := Resolve([], a[..|a| - 1]), a[|a| - 1];
    var joint := x + b[0];
    ResolveAppend([], a[..|a| - 1] + [joint], b[1..]);
    ResolveAppend([], a[..|a| - 1], [joint]);
    assert Resolve(stack, [joint]) == Step(stack, joint) by {
      assert [joint][1..] == [];
    }
    ResolveOrdinary(Step(stack, joint), b[1..]);
  }

  /** A stable end stays at the end, whatever comes before it. */
  lemma StableEndStays(front: string, suffix: string)
    requires StableEnd(suffix)
    ensures EndsWith(CleanPath(front + suffix), suffix)
  {
    var b := Split(suffix, '/');
    JoinSplit(suffix, '/');
    var stack, x := PartsBeforeEnd(front, suffix);
    hide Split, CleanParts, CleanPath, Join;
    assert b == [b[0]] + b[1..];
    if b[0] == "" {
      EndOfWholeParts(front + suffix, Step(stack, x + b[0]), b[1..], suffix);
    } else {
      LongerIsOrdinary(x, b[0]);
      EndInsidePart(front + suffix, stack, x, b[0], b[1..], suffix);
    }
  }

  lemma EndOfWholeParts(path: string, stack: seq<string>, back: seq<string>, suffix: string)
    requires CleanParts(path) == stack + back && suffix == Join([""] + back, "/")
    ensures EndsWith(CleanPath(path), suffix)
  {
    if back == [] {
      assert [""] + back == [""];
      assert suffix == "";
    } else {
      JoinConcat([""], back, "/");
      assert suffix == "/" + Join(back, "/");
      CleanEnds(path, stack, back);
    }
  }

  lemma EndInsidePart(path: string, stack: seq<string>, x: string, y: string, back: seq<string>, suffix: string)
    requires CleanParts(path) == stack + [x + y] + back && suffix == Join([y] + back, "/")
    ensures EndsWith(CleanPath(path), suffix)
  {
    assert stack + [x + y] + back == stack + ([x + y] + back);
    CleanEnds(path, stack, [x + y] + back);
    JoinLonger(x, y, back);
    EndsLonger(CleanPath(path), "/" + x, suffix);
  }

  lemma LongerIsOrdinary(x: string, y: string)
    requires Ordinary(y)
    ensures Ordinary(x + y)
  {
    assert y == (x + y)[|x|..];
    assert ".."[0..] == ".." && ".."[1..] == "." && ".."[2..] == "" && "."[0..] == "." && "."[1..] == "";
    assert |x| <= |x + y|;
  }

  lemma JoinLonger(x: string, y: string, back: seq<string>)
    ensures "/" + Join([x + y] + back, "/") == ("/" + x) + Join([y] + back, "/")
  {
    if back == [] {
      assert [x + y] + back == [x + y] && [y] + back == [y];
    } else {
      JoinConcat([x + y], back, "/");
      JoinConcat([y], back, "/");
      assert "/" + (x + y + "/" + Join(back, "/")) == ("/" + x) + (y + "/" + Join(back, "/"));
    }
  }

  lemma EndsLonger(text: string, front: string, suffix: string)
    requires EndsWith(text, front + suffix)
    ensures EndsWith(text, suffix)
  {
    var end := front + suffix;
    assert text[|text| - |suffix|..] == text[|text| - |end|..][|front|..];
  }

  // ---------------------------------------------------------------- unstable ends and other starts do not

  lemma {:induction false} ResolveUp(stack: seq<string>, ups: seq<string>)
    requires |ups| >= |stack| && forall i | 0 <= i < |ups| :: ups[i] == ".."
    ensures Resolve(stack, ups) == []
    decreases |ups|
  {
    if ups != [] {
      ResolveUp(Step(stack, ups[0]), ups[1..]);
    }
  }

  lemma {:induction false} ResolveIsShort(stack: seq<string>, parts: seq<string>)
    ensures |Resolve(stack, parts)| <= |stack| + |parts|
    decreases |parts|
  {
    if parts != [] {
      ResolveIsShort(Step(stack, parts[0]), parts[1..]);
    }
  }

  function Ups(n: nat): (ups: seq<string>)
    ensures |ups| == n && forall i | 0 <= i < n :: ups[i] == ".."
  {
    if n == 0 then [] else [".."] + Ups(n - 1)
  }

  /** A path that starts with `prefix`, goes up to the root and comes to a part that starts with `c`. */
  function Detour(prefix: string, c: char, suffix: string): string
  {
    Join([prefix] + Ups(|Split(prefix, '/')|), "/") + "/" + ([c] + suffix)
  }

  lemma DetourParts(prefix: string, c: char, suffix: string)
    requires c != '/'
    ensures
      var parts := Split(suffix, '/');
      CleanParts(Detour(prefix, c, suffix)) == Resolve([], [[c] + parts[0]] + parts[1..])
  {
    var ups, last := Ups(|Split(prefix, '/')|), Split([c] + suffix, '/');
    var front := Join([prefix] + ups, "/");
    SplitConcat(front, [c] + suffix, '/');
    SplitStep([c] + suffix, '/');
    assert ([c] + suffix)[1..] == suffix;
    JoinConcat([prefix], ups, "/");
    SplitConcat(prefix, Join(ups, "/"), '/');
    SplitJoin(ups, '/');
    ResolveAppend([], Split(front, '/'), last);
    ResolveAppend([], Split(prefix, '/'), ups);
    ResolveIsShort([], Split(prefix, '/'));
    ResolveUp(Resolve([], Split(prefix, '/')), ups);
  }

  /** The detour starts with the prefix and ends with the suffix. */
  lemma DetourMatches(prefix: string, c: char, suffix: string)
    requires prefix == "" || Absolute(prefix)
    ensures StartsWith(Detour(prefix, c, suffix), prefix) && EndsWith(Detour(prefix, c, suffix), suffix)
    ensures Absolute(Detour(prefix, c, suffix))
  {
    var ups := Ups(|Split(prefix, '/')|);
    JoinConcat([prefix], ups, "/");
    var front := Join(ups, "/");
    hide Split, Join, Ups;
    var path := Detour(prefix, c, suffix);
    assert path == prefix + ("/" + front + "/" + [c] + suffix);
    assert path == (prefix + "/" + front + "/" + [c]) + suffix;
  }

  /** Where the end is unstable in its later parts, the detour loses it. */
  lemma DetourLosesEnd(prefix: string, c: char, suffix: string)
    requires c != '/' && c != '.' && !AllOrdinary(Split(suffix, '/')[1..])
    ensures !EndsWith(CleanPath(Detour(prefix, c, suffix)), suffix)
  {
    var path, parts := Detour(prefix, c, suffix), Split(suffix, '/');
    DetourParts(prefix, c, suffix);
    hide Detour;
    if EndsWith(CleanPath(path), suffix) {
      if CleanParts(path) != [] {
        CleanEndsOrdinary(path, suffix);
      } else {
        CleanStarts(path);
        RootEnds(suffix);
        DetourToSlash(prefix, c);
      }
    }
  }

  lemma DetourToSlash(prefix: string, c: char)
    requires c != '/' && c != '.'
    ensures CleanParts(Detour(prefix, c, "/")) == [[c]]
  {
    DetourParts(prefix, c, "/");
    SplitConcat("", "", '/');
    assert "" + "/" + "" == "/";
    hide Detour;
    var parts := Split("/", '/');
    assert parts == ["", ""] && parts[1..] == [""];
    assert [c] + "" == [c];
    ResolveAppend([], [[c]], [""]);
    ResolveOrdinary([], [[c]]);
    assert Resolve([[c]], [""]) == [[c]];
  }

  lemma RootEnds(suffix: string)
    requires EndsWith("/", suffix)
    ensures suffix == "" || suffix == "/"
  {
    assert |suffix| <= 1;
    assert "/"[0..] == "/";
  }

  /** Otherwise it starts with its own first part. */
  lemma DetourStartsElsewhere(prefix: string, c: char, suffix: string)
    requires c != '/' && c != '.' && AllOrdinary(Split(suffix, '/')[1..])
    ensures |CleanPath(Detour(prefix, c, suffix))| >= 2 && CleanPath(Detour(prefix, c, suffix))[1] == c
  {
    var path, parts := Detour(prefix, c, suffix), Split(suffix, '/');
    DetourParts(prefix, c, suffix);
    hide Detour, Split;
    var first := [c] + parts[0];
    assert first[0] == c;
    assert AllOrdinary([first] + parts[1..]);
    ResolveOrdinary([], [first] + parts[1..]);
    assert CleanParts(path)[0] == first;
    CleanStarts(path);
  }

  /** A suffix that starts with a dot part is lost right behind the root. */
  lemma DotEndIsLost(suffix: string)
    requires AllOrdinary(Split(suffix, '/')[1..]) && (Split(suffix, '/')[0] == "." || Split(suffix, '/')[0] == "..")
    ensures !EndsWith(CleanPath("/" + suffix), suffix)
  {
    var b := Split(suffix, '/');
    SplitConcat("", suffix, '/');
    assert "" + "/" + suffix == "/" + suffix;
    SplitFree("", '/');
    JoinSplit(suffix, '/');
    assert b == [b[0]] + b[1..];
    ResolveAppend([], [""], b);
    ResolveAppend([], [b[0]], b[1..]);
    assert Resolve([], [""]) == [] && Resolve([], [b[0]]) == [];
    ResolveOrdinary([], b[1..]);
    assert CleanParts("/" + suffix) == b[1..];
    if b[1..] != [] {
      JoinConcat([b[0]], b[1..], "/");
    }
  }

  /**
    A pattern with one star survives exactly when it matches no absolute path, or when its
    prefix says no more than that a path is absolute and its end is stable: no dot part
    where the end begins, and only ordinary parts after that.
   */
  lemma StarSurvivesIff(prefix: string, suffix: string)
    requires Free(prefix, '*') && Free(suffix, '*')
    ensures SurvivesCleaning(prefix + "*" + suffix) <==>
              || (prefix != "" && !Absolute(prefix))
              || ((prefix == "" || prefix == "/") && StableEnd(suffix))
  {
    var pattern := prefix + "*" + suffix;
    forall path
      ensures PathMatches(pattern, path) <==> StartsWith(path, prefix) && EndsWith(path, suffix)
    {
      OneStarAccepts(prefix, suffix, path);
    }
    hide PathMatches, CleanPath, StableEnd, Split;
    if prefix != "" && !Absolute(prefix) {
      assert forall path | Absolute(path) :: !StartsWith(path, prefix);
    } else if prefix == "" || prefix == "/" {
      RootedStarSurvivesIff(prefix, suffix, pattern);
    } else {
      DeepStarIsLeft(prefix, suffix, pattern);
    }
  }

  lemma RootedStarSurvivesIff(prefix: string, suffix: string, pattern: string)
    requires prefix == "" || prefix == "/"
    requires forall path :: PathMatches(pattern, path) <==> StartsWith(path, prefix) && EndsWith(path, suffix)
    ensures SurvivesCleaning(pattern) <==> StableEnd(suffix)
  {
    hide PathMatches, Split;
    if StableEnd(suffix) {
      forall path | Absolute(path) && PathMatches(pattern, path)
        ensures PathMatches(pattern, CleanPath(path))
      {
        var front := path[..|path| - |suffix|];
        assert path == front + suffix;
        StableEndStays(front, suffix);
        assert CleanPath(path)[0] == '/';
      }
    } else {
      var path := if AllOrdinary(Split(suffix, '/')[1..]) then "/" + suffix else Detour(prefix, 'a', suffix);
      if AllOrdinary(Split(suffix, '/')[1..]) {
        DotEndIsLost(suffix);
        assert path[1..] == suffix;
      } else {
        DetourMatches(prefix, 'a', suffix);
        DetourLosesEnd(prefix, 'a', suffix);
      }
      assert Absolute(path) && PathMatches(pattern, path) && !PathMatches(pattern, CleanPath(path));
    }
  }

  lemma DeepStarIsLeft(prefix: string, suffix: string, pattern: string)
    requires Absolute(prefix) && |prefix| >= 2
    requires forall path :: PathMatches(pattern, path) <==> StartsWith(path, prefix) && EndsWith(path, suffix)
    ensures !SurvivesCleaning(pattern)
  {
    hide PathMatches, Split, CleanPath;
    var c := if prefix[1] == 'a' then 'b' else 'a';
    var path := Detour(prefix, c, suffix);
    DetourMatches(prefix, c, suffix);
    if AllOrdinary(Split(suffix, '/')[1..]) {
      DetourStartsElsewhere(prefix, c, suffix);
    } else {
      DetourLosesEnd(prefix, c, suffix);
    }
    hide Detour;
    assert Absolute(path) && PathMatches(pattern, path) && !PathMatches(pattern, CleanPath(path));
  }
}
