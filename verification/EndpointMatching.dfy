/**
  Matching a request path against an endpoint pattern, with named captures. The matcher
  walks two segment lists in step and fills a map; its contract says, position by position,
  when it succeeds and what the map then holds.
 */
module EndpointMatching {
  import opened Wrappers
  import opened Text
  import opened PathCleaning
  import opened PercentEncoding

  type Captures = map<string, string>

  predicate IsCapture(segment: string)
  {
    StartsWith(segment, "{") && EndsWith(segment, "}")
  }

  function CaptureName(segment: string): (name: string)
    requires IsCapture(segment)
    ensures segment == "{" + name + "}"
  {
    assert segment[|segment| - 1..] == "}";
    assert |segment| >= 2 by {
      assert segment[0] == '{' && segment[|segment| - 1] == segment[|segment| - 1..][0] == '}';
    }
    segment[1..|segment| - 1]
  }

  /** A letter, then letters, digits and underscores. The empty text passes. */
  predicate NameCharacters(name: string)
  {
    forall i | 0 <= i < |name| ::
      IsAsciiAlphabetic(name[i]) || (i > 0 && (IsAsciiDigit(name[i]) || name[i] == '_'))
  }

  predicate ValidName(name: string)
  {
    name != "" && NameCharacters(name)
  }

  /** One position of the walk; `r` is compared as written in the request, undecoded. */
  predicate Accepts(p: string, r: string)
  {
    if IsCapture(p) then ValidName(CaptureName(p)) else p == "*" || p == r
  }

  predicate DistinctCaptures(pp: seq<string>)
  {
    forall i, j | 0 <= i < j < |pp| && IsCapture(pp[i]) && IsCapture(pp[j]) :: pp[i] != pp[j]
  }

  predicate SegmentsMatch(pp: seq<string>, rp: seq<string>)
  {
    && |pp| == |rp|
    && (forall i | 0 <= i < |pp| :: Accepts(pp[i], rp[i]))
    && DistinctCaptures(pp)
  }

  /** The map the walk builds: each capture inserts its decoded segment. */
  function Bindings(pp: seq<string>, rp: seq<string>, lossy: LossyUtf8): (m: Captures)
    requires |pp| == |rp|
  {
    if pp == [] then map[]
    else
      var last := |pp| - 1;
      var m := Bindings(pp[..last], rp[..last], lossy);
      if IsCapture(pp[last]) then m[CaptureName(pp[last]) := DecodeSegment(rp[last], lossy)] else m
  }

  /** The segments the matcher compares. */
  function Segments(path: string): seq<string>
  {
    Split(TrimToRoot(CleanPath(path)), '/')
  }

  function EndpointMatch(pattern: string, path: string, lossy: LossyUtf8): Option<Captures>
  {
    if SegmentsMatch(Segments(pattern), Segments(path))
    then Some(Bindings(Segments(pattern), Segments(path), lossy))
    else None
  }

  /** The matcher: cleans both paths, then walks their segments with an early exit. */
  method MatchEndpoint(pattern: string, path: string, lossy: LossyUtf8) returns (r: Option<Captures>)
    ensures r.Some? <==> SegmentsMatch(Segments(pattern), Segments(path))
    ensures r == EndpointMatch(pattern, path, lossy)
  {
    var normalizedPattern := Clean(pattern);
    var normalizedPath := Clean(path);
    normalizedPattern := TrimEnd(normalizedPattern, '/');
    normalizedPath := TrimEnd(normalizedPath, '/');
    if normalizedPattern == "" {
      normalizedPattern := "/";
    }
    if normalizedPath == "" {
      normalizedPath := "/";
    }
    var pp := Split(normalizedPattern, '/');
    var rp := Split(normalizedPath, '/');
    if |pp| != |rp| {
      return None;
    }
    r := WalkSegments(pp, rp, lossy);
  }

  /** The walk over two segment lists of one length. */
  method WalkSegments(pp: seq<string>, rp: seq<string>, lossy: LossyUtf8) returns (r: Option<Captures>)
    requires |pp| == |rp|
    ensures r == if SegmentsMatch(pp, rp) then Some(Bindings(pp, rp, lossy)) else None
  {
    var out: Captures := map[];
    for i := 0 to |pp|
      invariant SegmentsMatch(pp[..i], rp[..i])
      invariant out == Bindings(pp[..i], rp[..i], lossy)
    {
      ExtendMatch(pp, rp, lossy, i);
      var p, q := pp[i], rp[i];
      if IsCapture(p) {
        var n := CaptureName(p);
        if !ValidName(n) || n in out {
          return None;
        }
        out := out[n := DecodeSegment(q, lossy)];
      } else if p != "*" && p != q {
        return None;
      }
    }
    assert pp[..|pp|] == pp && rp[..|rp|] == rp;
    r := Some(out);
  }

  /** One step of the walk either extends the match or rules it out for good. */
  lemma ExtendMatch(pp: seq<string>, rp: seq<string>, lossy: LossyUtf8, i: nat)
    requires i < |pp| == |rp| && SegmentsMatch(pp[..i], rp[..i])
    ensures
      var go := Accepts(pp[i], rp[i]) && (IsCapture(pp[i]) ==> CaptureName(pp[i]) !in Bindings(pp[..i], rp[..i], lossy));
      && (go ==> SegmentsMatch(pp[..i + 1], rp[..i + 1]))
      && (!go ==> !SegmentsMatch(pp, rp))
    ensures pp[..i + 1][..i] == pp[..i] && rp[..i + 1][..i] == rp[..i]
  {
    BindingNames(pp[..i], rp[..i], lossy);
    hide Bindings, Accepts, IsCapture;
    if IsCapture(pp[i]) && pp[i] in pp[..i] {
      var j :| 0 <= j < i && pp[..i][j] == pp[i];
      assert pp[j] == pp[i] && !DistinctCaptures(pp);
    } else if Accepts(pp[i], rp[i]) {
      LongerMatch(pp[..i], rp[..i], pp[i], rp[i]);
      assert pp[..i + 1] == pp[..i] + [pp[i]] && rp[..i + 1] == rp[..i] + [rp[i]];
    }
  }

  lemma LongerMatch(pp: seq<string>, rp: seq<string>, p: string, r: string)
    requires SegmentsMatch(pp, rp) && Accepts(p, r) && (IsCapture(p) ==> p !in pp)
    ensures SegmentsMatch(pp + [p], rp + [r])
  {
    hide Accepts, IsCapture;
  }

  lemma {:induction false} BindingNames(pp: seq<string>, rp: seq<string>, lossy: LossyUtf8)
    requires |pp| == |rp|
    ensures forall n :: n in Bindings(pp, rp, lossy) <==> "{" + n + "}" in pp
  {
    if pp != [] {
      var last := |pp| - 1;
      BindingNames(pp[..last], rp[..last], lossy);
      assert pp == pp[..last] + [pp[last]];
      forall n
        ensures n in Bindings(pp, rp, lossy) <==> "{" + n + "}" in pp
      {
        BracedIsCapture(n);
      }
    }
  }

  lemma BracedIsCapture(name: string)
    ensures IsCapture("{" + name + "}") && CaptureName("{" + name + "}") == name
  {
    var braced := "{" + name + "}";
    assert braced[|braced| - 1..] == "}";
  }

  lemma {:induction false} BindingValues(pp: seq<string>, rp: seq<string>, lossy: LossyUtf8, i: nat)
    requires |pp| == |rp| && DistinctCaptures(pp)
    requires i < |pp| && IsCapture(pp[i])
    ensures CaptureName(pp[i]) in Bindings(pp, rp, lossy)
    ensures Bindings(pp, rp, lossy)[CaptureName(pp[i])] == DecodeSegment(rp[i], lossy)
  {
    var last := |pp| - 1;
    if i < last {
      BindingValues(pp[..last], rp[..last], lossy, i);
    }
  }

  /** The map of a successful match: its names are the pattern's captures, its values their segments. */
  lemma BindingsAreExact(pattern: string, path: string, lossy: LossyUtf8)
    requires EndpointMatch(pattern, path, lossy).Some?
    ensures
      var pp, rp, m := Segments(pattern), Segments(path), EndpointMatch(pattern, path, lossy).value;
      && (forall n :: n in m <==> "{" + n + "}" in pp)
      && (forall i | 0 <= i < |pp| && IsCapture(pp[i]) ::
            CaptureName(pp[i]) in m && m[CaptureName(pp[i])] == DecodeSegment(rp[i], lossy))
  {
    var pp, rp := Segments(pattern), Segments(path);
    BindingNames(pp, rp, lossy);
    forall i | 0 <= i < |pp| && IsCapture(pp[i])
      ensures CaptureName(pp[i]) in Bindings(pp, rp, lossy)
      ensures Bindings(pp, rp, lossy)[CaptureName(pp[i])] == DecodeSegment(rp[i], lossy)
    {
      BindingValues(pp, rp, lossy, i);
    }
  }

  /** A capture is bound to what any encoding in its segment stands for. */
  lemma CaptureDecodes(pattern: string, path: string, lossy: LossyUtf8, i: nat, bytes: seq<Byte>)
    requires EndpointMatch(pattern, path, lossy).Some?
    requires i < |Segments(pattern)| && IsCapture(Segments(pattern)[i])
    requires Encodes(Utf8(Segments(path)[i]), bytes)
    ensures
      var m, name := EndpointMatch(pattern, path, lossy).value, CaptureName(Segments(pattern)[i]);
      name in m && m[name] == lossy(bytes)
  {
    BindingsAreExact(pattern, path, lossy);
    DecodeUndoesEncoding(Utf8(Segments(path)[i]), bytes);
    hide EndpointMatch, Segments, Encodes, Utf8, PercentDecode;
  }

  /** Cleaning either argument beforehand changes neither the decision nor the captures. */
  lemma MatchingIgnoresUncleanPaths(pattern: string, path: string, lossy: LossyUtf8)
    ensures EndpointMatch(CleanPath(pattern), CleanPath(path), lossy) == EndpointMatch(pattern, path, lossy)
  {
    CleanIsIdempotent(pattern);
    CleanIsIdempotent(path);
  }

  /** The segments compared are the cleaner's stack after an empty one; the root is two empty ones. */
  lemma SegmentsAreCleanParts(path: string)
    ensures Segments(path) == [""] + if CleanParts(path) == [] then [""] else CleanParts(path)
    ensures forall i | 0 < i < |Segments(path)| ::
              Ordinary(Segments(path)[i]) || (CleanParts(path) == [] && Segments(path)[i] == "")
  {
    TrimLeavesCleanPath(path);
    SegmentsOfCleanPath(path);
    CleanPartsAreOrdinary(path);
  }

  // A one-segment pattern, /* or /{x}, accepts the root, and captures the empty text there.
  lemma RootMatchesOneSegmentPatterns(pattern: string, lossy: LossyUtf8)
    requires |CleanParts(pattern)| == 1
    ensures EndpointMatch(pattern, "/", lossy).Some? <==> Accepts(CleanParts(pattern)[0], "")
    ensures
      IsCapture(CleanParts(pattern)[0]) && EndpointMatch(pattern, "/", lossy).Some? ==>
        EndpointMatch(pattern, "/", lossy).value == map[CaptureName(CleanParts(pattern)[0]) := DecodeSegment("", lossy)]
  {
    SegmentsAreCleanParts(pattern);
    SegmentsOfRoot();
    var pp, rp := Segments(pattern), Segments("/");
    assert pp == ["", CleanParts(pattern)[0]];
    MatchTwo(pp[1], lossy);
  }

  lemma SegmentsOfRoot()
    ensures Segments("/") == ["", ""]
  {
    SegmentsAreCleanParts("/");
    SplitConcat("", "", '/');
    assert Split("/", '/') == ["", ""] by {
      assert "" + "/" + "" == "/";
    }
    ResolveAppend([], [""], [""]);
    assert [""] + [""] == ["", ""];
  }

  lemma MatchTwo(p: string, lossy: LossyUtf8)
    ensures SegmentsMatch(["", p], ["", ""]) <==> Accepts(p, "")
    ensures Bindings(["", p], ["", ""], lossy)
         == if IsCapture(p) then map[CaptureName(p) := DecodeSegment("", lossy)] else map[]
  {
    var pp, rp := ["", p], ["", ""];
    assert Accepts("", "") && !IsCapture("");
    assert SegmentsMatch(pp, rp) <==> Accepts(pp[1], rp[1]);
    hide Accepts, IsCapture, DecodeSegment;
    assert pp[..1] == [""] && rp[..1] == [""];
    assert pp[..0] == [] && rp[..0] == [];
    assert Bindings(pp[..1][..0], rp[..1][..0], lossy) == map[];
    assert Bindings([""], [""], lossy) == map[];
  }

  /** A valid name, by the characters it may hold. */
  lemma NameBySpelling(name: string)
    ensures NameCharacters(name) <==>
              forall i | 0 <= i < |name| ::
                || name[i] in LowerLetters() || name[i] in UpperLetters()
                || (i > 0 && (name[i] in Digits() || name[i] in "_"))
  {
    forall i | 0 <= i < |name|
      ensures IsAsciiAlphabetic(name[i]) <==> name[i] in LowerLetters() || name[i] in UpperLetters()
      ensures IsAsciiDigit(name[i]) <==> name[i] in Digits()
    {
      AsciiClasses(name[i]);
    }
    hide IsAsciiAlphabetic, IsAsciiDigit, LowerLetters, UpperLetters, Digits;
  }

  // ---------------------------------------------------------------- validated patterns

  predicate HasBrace(segment: string)
  {
    '{' in segment || '}' in segment
  }

  /** What the configuration check demands of one raw segment of a pattern. */
  predicate WellFormedSegment(segment: string)
  {
    HasBrace(segment) ==> IsCapture(segment) && |segment| >= 3 && NameCharacters(CaptureName(segment))
  }

  /** Text without braces, or a name between two. */
  ghost predicate SpellsSegment(segment: string)
  {
    || (Free(segment, '{') && Free(segment, '}'))
    || exists name :: segment == "{" + name + "}" && SpellsName(name)
  }

  /** A letter, and then letters, digits and underscores. */
  predicate SpellsName(name: string)
  {
    && name != "" && (name[0] in LowerLetters() || name[0] in UpperLetters())
    && forall i | 0 <= i < |name| :: name[i] in LowerLetters() || name[i] in UpperLetters() || name[i] in Digits() || name[i] in "_"
  }

  lemma SegmentBySpelling(segment: string)
    ensures WellFormedSegment(segment) <==> SpellsSegment(segment)
    ensures WellFormedSegment(segment) ==> (IsCapture(segment) <==> !Free(segment, '{'))
  {
    if IsCapture(segment) {
      var name := CaptureName(segment);
      assert segment[0] == '{' && |segment| == |name| + 2;
      NameIsSpelled(name);
      assert forall other :: segment == "{" + other + "}" ==> other == segment[1..|segment| - 1];
      hide NameCharacters, SpellsName;
    } else {
      forall name ensures segment != "{" + name + "}" {
        EnclosedIsCapture(name);
      }
    }
  }

  lemma EnclosedIsCapture(name: string)
    ensures IsCapture("{" + name + "}")
  {
    var segment := "{" + name + "}";
    assert segment[|segment| - 1..] == "}";
  }

  lemma NameIsSpelled(name: string)
    ensures ValidName(name) <==> SpellsName(name)
  {
    NameBySpelling(name);
    if name != "" {
      AsciiClasses(name[0]);
    }
    hide NameCharacters, IsAsciiAlphabetic, IsAsciiDigit, LowerLetters, UpperLetters, Digits;
  }

  /** What the configuration check demands of a pattern; it reads raw segments. */
  predicate ValidPattern(pattern: string)
  {
    var raw := Split(pattern, '/');
    && (forall i | 0 <= i < |raw| :: WellFormedSegment(raw[i]))
    && DistinctCaptures(raw)
  }

  /** `q` picks elements of `p` in order. */
  ghost predicate Subsequence<T>(q: seq<T>, p: seq<T>)
  {
    exists at: seq<nat> :: PicksOut(at, q, p)
  }

  ghost predicate PicksOut<T>(at: seq<nat>, q: seq<T>, p: seq<T>)
  {
    && |at| == |q|
    && (forall i | 0 <= i < |q| :: at[i] < |p| && q[i] == p[at[i]])
    && (forall i, j | 0 <= i < j < |q| :: at[i] < at[j])
  }

  predicate AllBelow(at: seq<nat>, bound: nat)
  {
    forall i | 0 <= i < |at| :: at[i] < bound
  }

  lemma PickLess<T>(at: seq<nat>, q: seq<T>, p: seq<T>, bound: nat)
    requires PicksOut(at, q, p) && AllBelow(at, bound) && q != []
    ensures PicksOut(at[..|at| - 1], q[..|q| - 1], p) && AllBelow(at[..|at| - 1], bound + 1)
  {
  }

  lemma PickMore<T>(at: seq<nat>, q: seq<T>, p: seq<T>, bound: nat)
    requires PicksOut(at, q, p) && AllBelow(at, bound) && bound < |p|
    ensures PicksOut(at + [bound], q + [p[bound]], p) && AllBelow(at + [bound], bound + 1)
  {
  }

  lemma StepPicksOut(stack: seq<string>, at: seq<nat>, p: seq<string>, from: nat) returns (at': seq<nat>)
    requires from < |p| && PicksOut(at, stack, p) && AllBelow(at, from)
    ensures PicksOut(at', Step(stack, p[from]), p) && AllBelow(at', from + 1)
  {
    var part := p[from];
    at' := at;
    if part == ".." && stack != [] {
      PickLess(at, stack, p, from);
      at' := at[..|at| - 1];
    } else if Ordinary(part) {
      PickMore(at, stack, p, from);
      at' := at + [from];
    }
  }

  /** The cleaner only ever keeps raw parts, in their order. */
  lemma {:induction false} ResolvePicksOut(stack: seq<string>, at: seq<nat>, p: seq<string>, from: nat)
    requires from <= |p| && PicksOut(at, stack, p) && AllBelow(at, from)
    ensures Subsequence(Resolve(stack, p[from..]), p)
    decreases |p| - from
  {
    if from == |p| {
      assert Resolve(stack, p[from..]) == stack;
    } else {
      var at' := StepPicksOut(stack, at, p, from);
      hide PicksOut, Step;
      assert p[from..][0] == p[from] && p[from..][1..] == p[from + 1..];
      ResolvePicksOut(Step(stack, p[from]), at', p, from + 1);
    }
  }

  lemma CleanPartsAreRawParts(path: string)
    ensures Subsequence(CleanParts(path), Split(path, '/'))
  {
    var raw := Split(path, '/');
    ResolvePicksOut([], [], raw, 0);
    assert raw[0..] == raw;
  }

  /** Positions that fail for a reason of length or literal text only. */
  predicate LiteralMismatch(pp: seq<string>, rp: seq<string>)
  {
    || |pp| != |rp|
    || exists i | 0 <= i < |pp| :: !IsCapture(pp[i]) && pp[i] != "*" && pp[i] != rp[i]
  }

  /** Checking the raw segments is enough: the compared ones have good, distinct captures. */
  lemma ValidPatternSegments(pattern: string)
    requires ValidPattern(pattern)
    ensures DistinctCaptures(Segments(pattern))
    ensures forall i | 0 <= i < |Segments(pattern)| && IsCapture(Segments(pattern)[i]) ::
              ValidName(CaptureName(Segments(pattern)[i]))
  {
    SegmentsAreCleanParts(pattern);
    CleanPartsAreRawParts(pattern);
    var raw, parts, pp := Split(pattern, '/'), CleanParts(pattern), Segments(pattern);
    var at :| PicksOut(at, parts, raw);
    assert Split(pattern, '/') == raw && DistinctCaptures(raw);
    assert parts == [] ==> !IsCapture("");
    forall i | 0 <= i < |pp| && IsCapture(pp[i])
      ensures i > 0 && parts != [] && pp[i] == parts[i - 1] == raw[at[i - 1]]
      ensures ValidName(CaptureName(pp[i]))
    {
      hide CleanParts, Segments, NameCharacters;
      assert pp[i] != "" && HasBrace(pp[i]) by {
        assert pp[i][0] == '{';
      }
      assert WellFormedSegment(raw[at[i - 1]]);
    }
    hide CleanParts, Segments, NameCharacters, IsCapture;
    forall i, j | 0 <= i < j < |pp| && IsCapture(pp[i]) && IsCapture(pp[j])
      ensures pp[i] != pp[j]
    {
      assert at[i - 1] < at[j - 1];
    }
  }

  /** Adequacy of the configuration check: a checked pattern never fails because of its captures. */
  lemma ValidPatternFailsOnlyLiterally(pattern: string, path: string, lossy: LossyUtf8)
    requires ValidPattern(pattern)
    ensures EndpointMatch(pattern, path, lossy).None?
       <==> LiteralMismatch(Segments(pattern), Segments(path))
  {
    ValidPatternSegments(pattern);
    var pp, rp := Segments(pattern), Segments(path);
    if !LiteralMismatch(pp, rp) {
      forall i | 0 <= i < |pp| ensures Accepts(pp[i], rp[i]) {
      }
    }
  }
}
