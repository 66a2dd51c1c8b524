/** JavaScript strings: sequences of UTF-16 code units. */
module Text {

  /** One UTF-16 code unit, the element type of a JavaScript string. */
  newtype CodeUnit = x: int | 0 <= x < 0x1_0000

  /** A JavaScript string value. Its `length` is the number of code units. */
  type JsString = seq<CodeUnit>

  predicate IsHighSurrogate(u: CodeUnit) { 0xD800 <= u <= 0xDBFF }
  predicate IsLowSurrogate(u: CodeUnit) { 0xDC00 <= u <= 0xDFFF }
  predicate IsSurrogate(u: CodeUnit) { 0xD800 <= u <= 0xDFFF }

  /** True when position i starts a high/low surrogate pair. */
  predicate PairAt(s: JsString, i: nat)
  {
    i + 1 < |s| && IsHighSurrogate(s[i]) && IsLowSurrogate(s[i + 1])
  }

  /** The code point denoted by a high/low surrogate pair. */
  function PairValue(hi: CodeUnit, lo: CodeUnit): (cp: int)
    requires IsHighSurrogate(hi) && IsLowSurrogate(lo)
    ensures 0x1_0000 <= cp < 0x11_0000
  {
    0x1_0000 + (hi as int - 0xD800) * 0x400 + (lo as int - 0xDC00)
  }

  /** The UTF-16 code units of one Unicode scalar value. */
  function CodePointUnits(cp: int): (r: JsString)
    requires 0 <= cp < 0x11_0000
    requires !(0xD800 <= cp <= 0xDFFF)
    ensures cp < 0x1_0000 ==> r == [cp as CodeUnit] && !IsSurrogate(r[0])
    ensures 0x1_0000 <= cp ==> |r| == 2 && PairAt(r, 0) && PairValue(r[0], r[1]) == cp
  {
    if cp < 0x1_0000 then [cp as CodeUnit]
    else
      var hi := (0xD800 + (cp - 0x1_0000) / 0x400) as CodeUnit;
      var lo := (0xDC00 + (cp - 0x1_0000) % 0x400) as CodeUnit;
      [hi, lo]
  }

  /** The code units of a Dafny string literal made of ASCII characters; it turns the
      string literals of the handler into JavaScript strings. */
  function Ascii(s: string): (r: JsString)
    requires forall i | 0 <= i < |s| :: s[i] as int < 0x80
    ensures |r| == |s|
    ensures forall i | 0 <= i < |s| :: r[i] as int == s[i] as int
  {
    seq(|s|, i requires 0 <= i < |s| => s[i] as int as CodeUnit)
  }

  /** A string with no lone surrogate: every surrogate belongs to a high/low pair. */
  ghost predicate WellFormed(s: JsString)
    decreases |s|
  {
    if s == [] then true
    else if PairAt(s, 0) then WellFormed(s[2..])
    else !IsSurrogate(s[0]) && WellFormed(s[1..])
  }

  const SLASH: CodeUnit := 0x2F
  const UNDERSCORE: CodeUnit := 0x5F
  const COMMA: CodeUnit := 0x2C
  const COLON: CodeUnit := 0x3A
  const SPACE: CodeUnit := 0x20
  const LINE_FEED: CodeUnit := 0x0A
  const QUOTE: CodeUnit := 0x22
  const BACKSLASH: CodeUnit := 0x5C
}
