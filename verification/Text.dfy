/**
  The string operations of Rust's standard library that the proxy relies on, with the
  algebra (split/join round trips, locality of replacement) the rest of the model needs.
 */
module Text {

  /** `str::split` on one character: always at least one part. */
  function Split(s: string, c: char): (parts: seq<string>)
    ensures |parts| >= 1
  {
    if s == "" then [""]
    else
      var rest := Split(s[1..], c);
      if s[0] == c then [""] + rest else Glue(s[0], rest)
  }

  /** `x` in front of the first part. */
  function Glue(x: char, parts: seq<string>): (glued: seq<string>)
    requires |parts| >= 1
    ensures |glued| == |parts|
  {
    [[x] + parts[0]] + parts[1..]
  }

  lemma GlueConcat(x: char, first: seq<string>, second: seq<string>)
    requires |first| >= 1
    ensures Glue(x, first + second) == Glue(x, first) + second
  {
    assert (first + second)[1..] == first[1..] + second;
  }

  /** `[T]::join`. */
  function Join(parts: seq<string>, sep: string): string
  {
    if |parts| == 0 then ""
    else if |parts| == 1 then parts[0]
    else parts[0] + sep + Join(parts[1..], sep)
  }

  predicate Free(s: string, c: char)
  {
    c !in s
  }

  predicate AllFree(parts: seq<string>, c: char)
  {
    forall i | 0 <= i < |parts| :: Free(parts[i], c)
  }

  lemma {:induction false} SplitPartsAreFree(s: string, c: char)
    ensures AllFree(Split(s, c), c)
  {
    if s != "" {
      SplitPartsAreFree(s[1..], c);
    }
  }

  /** Text with no separator in it is one part. */
  lemma {:induction false} SplitFree(w: string, c: char)
    requires Free(w, c)
    ensures Split(w, c) == [w]
  {
    if w != "" {
      SplitFree(w[1..], c);
      assert [w[0]] + w[1..] == w;
    }
  }

  /** A separator between two texts separates their parts. */
  lemma {:induction false} SplitConcat(a: string, b: string, c: char)
    ensures Split(a + [c] + b, c) == Split(a, c) + Split(b, c)
  {
    var whole := a + [c] + b;
    SplitStep(whole, c);
    if a == "" {
      assert whole[1..] == b;
    } else {
      SplitConcat(a[1..], b, c);
      SplitStep(a, c);
      assert whole[0] == a[0] && whole[1..] == a[1..] + [c] + b;
      hide *;
      var first, second := Split(a[1..], c), Split(b, c);
      if a[0] == c {
        assert [""] + (first + second) == ([""] + first) + second;
      } else {
        GlueConcat(a[0], first, second);
      }
    }
  }

  lemma SplitStep(s: string, c: char)
    requires s != ""
    ensures Split(s, c) == if s[0] == c then [""] + Split(s[1..], c) else Glue(s[0], Split(s[1..], c))
  {
  }

  /** Joining what was split gives the text back. */
  lemma {:induction false} JoinSplit(s: string, c: char)
    ensures Join(Split(s, c), [c]) == s
  {
    if s != "" {
      JoinSplit(s[1..], c);
      var rest := Split(s[1..], c);
      if s[0] == c {
        assert ([""] + rest)[1..] == rest;
      } else if |rest| == 1 {
        assert Glue(s[0], rest) == [[s[0]] + rest[0]];
      } else {
        assert Glue(s[0], rest)[1..] == rest[1..];
      }
    }
  }

  /** Splitting what was joined gives the parts back, when no part holds the separator. */
  lemma {:induction false} SplitJoin(parts: seq<string>, c: char)
    requires |parts| >= 1 && AllFree(parts, c)
    ensures Split(Join(parts, [c]), c) == parts
  {
    SplitFree(parts[0], c);
    if |parts| > 1 {
      SplitJoin(parts[1..], c);
      SplitConcat(parts[0], Join(parts[1..], [c]), c);
    }
  }

  /** Text is one part exactly when it holds no separator. */
  lemma {:induction false} OnePartIsFree(w: string, c: char)
    ensures |Split(w, c)| == 1 <==> Free(w, c)
  {
    if w != "" {
      OnePartIsFree(w[1..], c);
    }
  }

  /** A join has at least as many parts as were joined, and no more exactly when none holds the separator. */
  lemma {:induction false} JoinPartCount(parts: seq<string>, c: char)
    requires |parts| >= 1
    ensures |Split(Join(parts, [c]), c)| >= |parts|
    ensures |Split(Join(parts, [c]), c)| == |parts| <==> AllFree(parts, c)
  {
    OnePartIsFree(parts[0], c);
    if |parts| > 1 {
      var rest := parts[1..];
      JoinPartCount(rest, c);
      SplitConcat(parts[0], Join(rest, [c]), c);
      assert forall i | 0 < i < |parts| :: parts[i] == rest[i - 1];
      assert forall i | 0 <= i < |rest| :: rest[i] == parts[i + 1];
    }
  }

  /** A join may be made in two halves. */
  lemma {:induction false} JoinConcat(a: seq<string>, b: seq<string>, sep: string)
    requires |a| >= 1 && |b| >= 1
    ensures Join(a + b, sep) == Join(a, sep) + sep + Join(b, sep)
  {
    assert (a + b)[1..] == a[1..] + b;
    if |a| > 1 {
      JoinConcat(a[1..], b, sep);
      Regroup(a[0], sep, Join(a[1..], sep), sep, Join(b, sep));
    } else {
      assert (a + b)[1..] == b;
    }
  }

  lemma Regroup(a: string, p: string, b: string, q: string, c: string)
    ensures a + p + (b + q + c) == a + p + b + q + c
  {
  }

  /** `trim_end_matches` on one character. */
  function TrimEnd(s: string, c: char): (r: string)
    ensures r <= s
    ensures r == "" || r[|r| - 1] != c
    ensures forall i | |r| <= i < |s| :: s[i] == c
  {
    if s != "" && s[|s| - 1] == c then TrimEnd(s[..|s| - 1], c) else s
  }

  predicate StartsWith(s: string, prefix: string)
  {
    prefix <= s
  }

  predicate EndsWith(s: string, suffix: string)
  {
    |suffix| <= |s| && s[|s| - |suffix|..] == suffix
  }

  /** `str::replace`: leftmost occurrences first, never overlapping. */
  function ReplaceAll(s: string, pattern: string, to: string): string
    requires pattern != ""
    decreases |s|
  {
    if s == "" then ""
    else if pattern <= s then to + ReplaceAll(s[|pattern|..], pattern, to)
    else [s[0]] + ReplaceAll(s[1..], pattern, to)
  }

  function LowerChar(c: char): char
  {
    if 'A' <= c <= 'Z' then (c as int + 32) as char else c
  }

  /** `to_ascii_lowercase`. */
  function AsciiLower(s: string): (r: string)
    ensures |r| == |s|
    ensures forall i | 0 <= i < |s| :: r[i] == LowerChar(s[i])
  {
    seq(|s|, i requires 0 <= i < |s| => LowerChar(s[i]))
  }

  function LowerLetters(): string
  {
    "abcdefghijklmnopqrstuvwxyz"
  }

  function UpperLetters(): string
  {
    "ABCDEFGHIJKLMNOPQRSTUVWXYZ"
  }

  function Digits(): string
  {
    "0123456789"
  }

  /** The characters are the same, or the same letter in two cases. */
  predicate SameLetter(a: char, b: char)
  {
    || a == b
    || exists i | 0 <= i < 26 ::
         (a == LowerLetters()[i] && b == UpperLetters()[i]) || (a == UpperLetters()[i] && b == LowerLetters()[i])
  }

  /** `eq_ignore_ascii_case` */
  predicate EqualIgnoringCase(s: string, t: string)
  {
    |s| == |t| && forall i | 0 <= i < |s| :: SameLetter(s[i], t[i])
  }

  lemma LetterCodes()
    ensures |LowerLetters()| == |UpperLetters()| == 26 && |Digits()| == 10
    ensures forall i | 0 <= i < 26 :: LowerLetters()[i] as int == 97 + i && UpperLetters()[i] as int == 65 + i
    ensures forall i | 0 <= i < 10 :: Digits()[i] as int == 48 + i
  {
  }

  lemma LowerCharFolds(a: char, b: char)
    ensures LowerChar(a) == LowerChar(b) <==> SameLetter(a, b)
    ensures LowerChar(a) !in UpperLetters() && (a !in UpperLetters() ==> LowerChar(a) == a)
  {
    LetterCodes();
    hide LowerLetters, UpperLetters;
    if LowerChar(a) == LowerChar(b) && a != b {
      var i := LowerChar(a) as int - 97;
      assert 0 <= i < 26;
      assert (a == LowerLetters()[i] && b == UpperLetters()[i]) || (a == UpperLetters()[i] && b == LowerLetters()[i]);
    }
    if 'A' <= a <= 'Z' {
      assert UpperLetters()[a as int - 65] == a;
    }
  }

  /** Lower case is one text for all spellings of it, and no other. */
  lemma LowerMeansIgnoringCase(s: string, t: string)
    ensures AsciiLower(s) == AsciiLower(t) <==> EqualIgnoringCase(s, t)
  {
    hide SameLetter, LowerChar;
    forall a, b
      ensures LowerChar(a) == LowerChar(b) <==> SameLetter(a, b)
    {
      LowerCharFolds(a, b);
    }
    if AsciiLower(s) == AsciiLower(t) {
      forall i | 0 <= i < |s|
        ensures LowerChar(s[i]) == LowerChar(t[i])
      {
        assert AsciiLower(s)[i] == AsciiLower(t)[i];
      }
    }
  }

  /** A name without capitals is another's lower case exactly when they are equal up to letter case. */
  lemma LowerNameMatches(field: string, name: string)
    requires forall i | 0 <= i < |field| :: field[i] !in UpperLetters()
    ensures field == AsciiLower(name) <==> EqualIgnoringCase(field, name)
  {
    LowerMeansIgnoringCase(field, name);
    hide LowerChar, SameLetter;
    forall i | 0 <= i < |field|
      ensures LowerChar(field[i]) == field[i]
    {
      LowerCharFolds(field[i], field[i]);
    }
    assert AsciiLower(field) == field;
  }

  /** The character classes, by their members. */
  lemma AsciiClasses(c: char)
    ensures IsAsciiAlphabetic(c) <==> c in LowerLetters() || c in UpperLetters()
    ensures IsAsciiDigit(c) <==> c in Digits()
  {
    LetterCodes();
    hide LowerLetters, UpperLetters, Digits;
    if IsAsciiAlphabetic(c) {
      assert c == if c >= 'a' then LowerLetters()[c as int - 97] else UpperLetters()[c as int - 65];
    }
    if IsAsciiDigit(c) {
      assert c == Digits()[c as int - 48];
    }
  }

  predicate IsAsciiAlphabetic(c: char)
  {
    'a' <= c <= 'z' || 'A' <= c <= 'Z'
  }

  predicate IsAsciiDigit(c: char)
  {
    '0' <= c <= '9'
  }

  /** The Unicode property White_Space, which `str::trim` removes at both ends. */
  predicate IsWhitespace(c: char)
  {
    var u := c as int;
    || 0x09 <= u <= 0x0D || u == 0x20 || u == 0x85 || u == 0xA0 || u == 0x1680
    || 0x2000 <= u <= 0x200A || u == 0x2028 || u == 0x2029 || u == 0x202F
    || u == 0x205F || u == 0x3000
  }

  /** The code points of that property. */
  function WhitespaceCodes(): seq<int>
  {
    [0x09, 0x0A, 0x0B, 0x0C, 0x0D, 0x20, 0x85, 0xA0, 0x1680, 0x2000, 0x2001, 0x2002, 0x2003, 0x2004, 0x2005, 0x2006,
     0x2007, 0x2008, 0x2009, 0x200A, 0x2028, 0x2029, 0x202F, 0x205F, 0x3000]
  }

  lemma WhitespaceByCode(c: char)
    ensures IsWhitespace(c) <==> c as int in WhitespaceCodes()
  {
    var w, u := WhitespaceCodes(), c as int;
    if 0x09 <= u <= 0x0D {
      assert w[u - 0x09] == u;
    } else if 0x2000 <= u <= 0x200A {
      assert w[u - 0x2000 + 9] == u;
    } else if IsWhitespace(c) {
      assert w[5] == 0x20 && w[6] == 0x85 && w[7] == 0xA0 && w[8] == 0x1680;
      assert w[20] == 0x2028 && w[21] == 0x2029 && w[22] == 0x202F && w[23] == 0x205F && w[24] == 0x3000;
    }
  }

  /** `s.trim().is_empty()` */
  predicate IsBlank(s: string)
  {
    forall i | 0 <= i < |s| :: IsWhitespace(s[i])
  }

  lemma BlankByCode(s: string)
    ensures IsBlank(s) <==> forall i | 0 <= i < |s| :: s[i] as int in WhitespaceCodes()
  {
    forall i | 0 <= i < |s|
      ensures IsWhitespace(s[i]) <==> s[i] as int in WhitespaceCodes()
    {
      WhitespaceByCode(s[i]);
    }
    hide IsWhitespace, WhitespaceCodes;
  }
}
