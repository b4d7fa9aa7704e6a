/** The allow and ignore lists: a pattern with one star, or a literal path. */
module PathFilter {
  import opened Text

  predicate PathMatches(pattern: string, path: string)
  {
    || pattern == path || pattern == "*"
    || StarMatches(Split(pattern, '*'), path)
  }

  /** The parts around the stars of a pattern: two of them, that start and end the path. */
  predicate StarMatches(p: seq<string>, path: string)
  {
    |p| == 2 && StartsWith(path, p[0]) && EndsWith(path, p[1])
  }

  predicate AnyMatches(patterns: seq<string>, path: string)
  {
    exists i | 0 <= i < |patterns| :: PathMatches(patterns[i], path)
  }

  /** A list accepts what one of its patterns accepts, wherever it stands. */
  lemma AnyMatchesIsUnion(before: seq<string>, pattern: string, after: seq<string>, path: string)
    ensures !AnyMatches([], path)
    ensures AnyMatches(before + [pattern] + after, path) <==>
              AnyMatches(before, path) || PathMatches(pattern, path) || AnyMatches(after, path)
  {
    hide PathMatches;
    var all := before + [pattern] + after;
    assert all[|before|] == pattern;
    if i :| 0 <= i < |before| && PathMatches(before[i], path) {
      assert all[i] == before[i];
    }
    if i :| 0 <= i < |after| && PathMatches(after[i], path) {
      assert all[|before| + 1 + i] == after[i];
    }
  }

  /** `path` ends `prefix` and starts `suffix` with the same `k` characters. */
  predicate Overlap(prefix: string, suffix: string, path: string, k: nat)
  {
    0 < k <= |prefix| && k <= |suffix| && prefix[|prefix| - k..] == suffix[..k] && path == prefix + suffix[k..]
  }

  /**
    A pattern with exactly one star accepts prefix, anything, suffix; and, besides, just
    the shorter paths in which prefix and suffix overlap.
   */
  lemma OneStarMeaning(prefix: string, suffix: string, path: string)
    requires Free(prefix, '*') && Free(suffix, '*')
    ensures PathMatches(prefix + "*" + suffix, path)
       <==> || (exists middle: string :: path == prefix + middle + suffix)
            || (exists k: nat :: Overlap(prefix, suffix, path, k))
  {
    OneStarAccepts(prefix, suffix, path);
    if StartsWith(path, prefix) && EndsWith(path, suffix) {
      if |path| >= |prefix| + |suffix| {
        MiddleOfLongPath(prefix, suffix, path);
      } else {
        OverlapOfShortPath(prefix, suffix, path);
      }
    }
    if middle: string :| path == prefix + middle + suffix {
      assert path == prefix + (middle + suffix);
      assert path[|path| - |suffix|..] == suffix;
    }
    if k: nat :| Overlap(prefix, suffix, path, k) {
      OverlapEndsWithSuffix(prefix, suffix, path, k);
    }
  }

  lemma OneStarAccepts(prefix: string, suffix: string, path: string)
    requires Free(prefix, '*') && Free(suffix, '*')
    ensures PathMatches(prefix + "*" + suffix, path) <==> StartsWith(path, prefix) && EndsWith(path, suffix)
  {
    SplitConcat(prefix, suffix, '*');
    SplitFree(prefix, '*');
    SplitFree(suffix, '*');
    var pattern := prefix + "*" + suffix;
    var parts := [prefix] + [suffix];
    assert Split(pattern, '*') == parts;
    assert StarMatches(parts, path) <==> StartsWith(path, prefix) && EndsWith(path, suffix);
    hide Split, StarMatches;
    if pattern == "*" {
      assert |pattern| == |prefix| + 1 + |suffix|;
      assert path[|path|..] == "";
    } else if pattern == path {
      PatternStartsAndEnds(prefix, suffix);
    }
  }

  lemma PatternStartsAndEnds(prefix: string, suffix: string)
    ensures StartsWith(prefix + "*" + suffix, prefix) && EndsWith(prefix + "*" + suffix, suffix)
  {
    assert prefix + "*" + suffix == prefix + ("*" + suffix);
  }

  lemma MiddleOfLongPath(prefix: string, suffix: string, path: string)
    requires StartsWith(path, prefix) && EndsWith(path, suffix) && |path| >= |prefix| + |suffix|
    ensures path == prefix + path[|prefix|..|path| - |suffix|] + suffix
  {
    assert path == path[..|prefix|] + path[|prefix|..|path| - |suffix|] + path[|path| - |suffix|..];
  }

  lemma OverlapEndsWithSuffix(prefix: string, suffix: string, path: string, k: nat)
    requires Overlap(prefix, suffix, path, k)
    ensures StartsWith(path, prefix) && EndsWith(path, suffix)
  {
    var front := prefix[..|prefix| - k];
    assert prefix == front + suffix[..k];
    assert suffix == suffix[..k] + suffix[k..];
    assert path == front + suffix;
    assert path[|path| - |suffix|..] == suffix;
  }

  lemma OverlapOfShortPath(prefix: string, suffix: string, path: string)
    requires StartsWith(path, prefix) && EndsWith(path, suffix) && |path| < |prefix| + |suffix|
    ensures Overlap(prefix, suffix, path, |prefix| + |suffix| - |path|)
  {
    var k := |prefix| + |suffix| - |path|;
    var at := |path| - |suffix|;
    assert path == path[..at] + suffix;
    assert path == prefix + path[|prefix|..];
    assert prefix[at..] == path[at..|prefix|] == suffix[..k];
    assert path[|prefix|..] == suffix[k..];
  }

  /** A pattern with no star, or with two or more, accepts only itself. */
  lemma OtherPatternsAreLiteral(pattern: string, path: string)
    requires |Split(pattern, '*')| != 2
    ensures PathMatches(pattern, path) <==> path == pattern
  {
    SplitConcat("", "", '*');
    SplitFree("", '*');
    assert "" + "*" + "" == "*";
  }

  /** Two parts are exactly one star. */
  lemma TwoPartsAreOneStar(pattern: string)
    ensures |Split(pattern, '*')| == 2
       <==> exists prefix, suffix :: Free(prefix, '*') && Free(suffix, '*') && pattern == prefix + "*" + suffix
  {
    if |Split(pattern, '*')| == 2 {
      var p := Split(pattern, '*');
      JoinSplit(pattern, '*');
      SplitPartsAreFree(pattern, '*');
      assert Join(p, "*") == p[0] + "*" + p[1];
    }
    if prefix, suffix :| Free(prefix, '*') && Free(suffix, '*') && pattern == prefix + "*" + suffix {
      SplitConcat(prefix, suffix, '*');
      SplitFree(prefix, '*');
      SplitFree(suffix, '*');
    }
  }
}
