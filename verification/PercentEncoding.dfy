/**
  Percent-decoding of a path segment (section 2.1 of RFC 3986), on the UTF-8 bytes of the
  segment. Turning the decoded bytes back into text replaces malformed sequences; that
  last step is a parameter of the model.
 */
module PercentEncoding {
  type Byte = b: int | 0 <= b < 256

  /** `String::from_utf8_lossy` */
  type LossyUtf8 = seq<Byte> -> string

  const PERCENT: Byte := 37

  function Utf8Char(c: char): (bytes: seq<Byte>)
  {
    var u := c as int;
    if u < 0x80 then [u]
    else if u < 0x800 then [0xC0 + u / 0x40, 0x80 + u % 0x40]
    else if u < 0x1_0000 then [0xE0 + u / 0x1000, 0x80 + u / 0x40 % 0x40, 0x80 + u % 0x40]
    else [0xF0 + u / 0x4_0000, 0x80 + u / 0x1000 % 0x40, 0x80 + u / 0x40 % 0x40, 0x80 + u % 0x40]
  }

  function Utf8(s: string): seq<Byte>
  {
    if s == "" then [] else Utf8Char(s[0]) + Utf8(s[1..])
  }

  /** ASCII characters are their own byte; all bytes of other characters lie above ASCII. */
  lemma {:induction false} Utf8KeepsAsciiApart(s: string, b: Byte)
    requires b < 0x80
    ensures b in Utf8(s) <==> b as char in s
  {
    if s != "" {
      Utf8KeepsAsciiApart(s[1..], b);
      assert s == [s[0]] + s[1..];
    }
  }

  predicate IsHexDigit(b: Byte)
  {
    48 <= b <= 57 || 65 <= b <= 70 || 97 <= b <= 102
  }

  function HexValue(b: Byte): (v: nat)
    requires IsHexDigit(b)
    ensures v < 16
  {
    if b <= 57 then b - 48 else if b <= 70 then b - 55 else b - 87
  }

  /** `%` followed by two hexadecimal digits is one byte; any other `%` stands for itself. */
  function PercentDecode(bytes: seq<Byte>): seq<Byte>
  {
    if bytes == [] then []
    else if |bytes| >= 3 && bytes[0] == PERCENT && IsHexDigit(bytes[1]) && IsHexDigit(bytes[2]) then
      [16 * HexValue(bytes[1]) + HexValue(bytes[2])] + PercentDecode(bytes[3..])
    else
      [bytes[0]] + PercentDecode(bytes[1..])
  }

  /** What a capture is bound to, for the segment it matched. */
  function DecodeSegment(segment: string, lossy: LossyUtf8): string
  {
    lossy(PercentDecode(Utf8(segment)))
  }

  function HexDigit(v: nat): (b: Byte)
    requires v < 16
    ensures IsHexDigit(b) && HexValue(b) == v
  {
    if v < 10 then 48 + v else 55 + v
  }

  /** The encoding that escapes the bytes a set of safe bytes does not hold. */
  function PercentEncode(bytes: seq<Byte>, safe: set<Byte>): seq<Byte>
  {
    if bytes == [] then []
    else if bytes[0] in safe then [bytes[0]] + PercentEncode(bytes[1..], safe)
    else [PERCENT, HexDigit(bytes[0] / 16), HexDigit(bytes[0] % 16)] + PercentEncode(bytes[1..], safe)
  }

  /** Decoding undoes every encoding that escapes the percent sign. */
  lemma {:induction false} DecodeEncode(bytes: seq<Byte>, safe: set<Byte>)
    requires PERCENT !in safe
    ensures PercentDecode(PercentEncode(bytes, safe)) == bytes
  {
    if bytes != [] {
      DecodeEncode(bytes[1..], safe);
      var tail := PercentEncode(bytes[1..], safe);
      if bytes[0] in safe {
        assert ([bytes[0]] + tail)[1..] == tail;
      } else {
        var escape := [PERCENT, HexDigit(bytes[0] / 16), HexDigit(bytes[0] % 16)];
        assert (escape + tail)[3..] == tail;
      }
    }
  }

  // ---------------------------------------------------------------- digits by their spelling

  function LowerHex(): string
  {
    "0123456789abcdef"
  }

  function UpperHex(): string
  {
    "0123456789ABCDEF"
  }

  /** The byte spells the digit of that value, in either letter case. */
  predicate SpellsDigit(b: Byte, v: nat)
  {
    v < 16 && (LowerHex()[v] as int == b || UpperHex()[v] as int == b)
  }

  lemma HexCodes()
    ensures |LowerHex()| == |UpperHex()| == 16
    ensures forall v | 0 <= v < 16 :: LowerHex()[v] as int == if v < 10 then 48 + v else 87 + v
    ensures forall v | 0 <= v < 16 :: UpperHex()[v] as int == if v < 10 then 48 + v else 55 + v
  {
  }

  /** Which bytes are digits, what they stand for, and which of them is written. */
  lemma DigitsBySpelling(b: Byte, v: nat)
    ensures IsHexDigit(b) && HexValue(b) == v <==> SpellsDigit(b, v)
    ensures v < 16 ==> HexDigit(v) as char == UpperHex()[v]
  {
    HexCodes();
    hide LowerHex, UpperHex;
  }

  lemma DigitsAreSpelled(b: Byte)
    ensures IsHexDigit(b) <==> exists v: nat :: SpellsDigit(b, v)
  {
    if IsHexDigit(b) {
      DigitsBySpelling(b, HexValue(b));
    }
    if v: nat :| SpellsDigit(b, v) {
      DigitsBySpelling(b, v);
    }
  }

  /**
    `code` is an encoding of `bytes`: each byte but the percent sign as itself, or any byte as
    a percent sign and its two digits, each of them in either letter case.
   */
  predicate Encodes(code: seq<Byte>, bytes: seq<Byte>)
  {
    if bytes == [] then code == []
    else
      || (code != [] && code[0] == bytes[0] && bytes[0] as char != '%' && Encodes(code[1..], bytes[1..]))
      || (|code| >= 3 && code[0] as char == '%' && SpellsDigit(code[1], bytes[0] / 16) && SpellsDigit(code[2], bytes[0] % 16)
          && Encodes(code[3..], bytes[1..]))
  }

  /** Decoding undoes every encoding there is. */
  lemma {:induction false} DecodeUndoesEncoding(code: seq<Byte>, bytes: seq<Byte>)
    requires Encodes(code, bytes)
    ensures PercentDecode(code) == bytes
    decreases |bytes|
  {
    hide SpellsDigit, IsHexDigit, HexValue;
    if bytes != [] {
      if code[0] as char == '%' {
        DecodeUndoesEncoding(code[3..], bytes[1..]);
        DigitsBySpelling(code[1], bytes[0] / 16);
        DigitsBySpelling(code[2], bytes[0] % 16);
      } else {
        DecodeUndoesEncoding(code[1..], bytes[1..]);
      }
    }
  }

  /** A percent sign that no two digits follow stands for itself. */
  lemma StrayPercentStays(code: seq<Byte>)
    requires code != [] && code[0] as char == '%'
    requires |code| >= 3 ==> forall v: nat, w: nat :: !(SpellsDigit(code[1], v) && SpellsDigit(code[2], w))
    ensures PercentDecode(code) == [code[0]] + PercentDecode(code[1..])
  {
    hide SpellsDigit, IsHexDigit, HexValue;
    if |code| >= 3 {
      DigitsAreSpelled(code[1]);
      DigitsAreSpelled(code[2]);
    }
  }

  // ---------------------------------------------------------------- the bytes of a character

  predicate Continues(b: int)
  {
    0x80 <= b <= 0xBF
  }

  /** The forms of RFC 3629: lead byte, continuation bytes, and the code point they spell. */
  predicate Spells(bytes: seq<int>, u: int)
  {
    match |bytes|
    case 1 => 0 <= bytes[0] <= 0x7F && u == bytes[0]
    case 2 => 0xC2 <= bytes[0] <= 0xDF && Continues(bytes[1]) && u == (bytes[0] - 0xC0) * 64 + bytes[1] - 0x80
    case 3 =>
      && 0xE0 <= bytes[0] <= 0xEF && Continues(bytes[1]) && Continues(bytes[2]) && u >= 0x800
      && u == (bytes[0] - 0xE0) * 4096 + (bytes[1] - 0x80) * 64 + bytes[2] - 0x80
    case 4 =>
      && 0xF0 <= bytes[0] <= 0xF4 && Continues(bytes[1]) && Continues(bytes[2]) && Continues(bytes[3]) && u >= 0x1_0000
      && u == (bytes[0] - 0xF0) * 262144 + (bytes[1] - 0x80) * 4096 + (bytes[2] - 0x80) * 64 + bytes[3] - 0x80
    case _ => false
  }

  lemma DigitsBase64(u: nat)
    ensures u == u / 0x40 * 0x40 + u % 0x40 && u / 0x40 / 0x40 == u / 0x1000 && u / 0x1000 / 0x40 == u / 0x4_0000
  {
  }

  lemma ThreeSpell(u: nat)
    requires 0x800 <= u < 0x1_0000
    ensures Spells([0xE0 + u / 0x1000, 0x80 + u / 0x40 % 0x40, 0x80 + u % 0x40], u)
  {
    DigitsBase64(u);
    DigitsBase64(u / 0x40);
  }

  lemma FourSpell(u: nat)
    requires 0x1_0000 <= u < 0x11_0000
    ensures Spells([0xF0 + u / 0x4_0000, 0x80 + u / 0x1000 % 0x40, 0x80 + u / 0x40 % 0x40, 0x80 + u % 0x40], u)
  {
    DigitsBase64(u);
    DigitsBase64(u / 0x40);
    DigitsBase64(u / 0x1000);
  }

  /** The encoding spells its character. */
  lemma Utf8CharSpells(c: char)
    ensures Spells(Utf8Char(c), c as int)
  {
    var u := c as int;
    if 0x800 <= u < 0x1_0000 {
      ThreeSpell(u);
    } else if u >= 0x1_0000 {
      FourSpell(u);
    } else {
      DigitsBase64(u);
    }
  }
}
