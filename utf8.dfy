/** `Buffer.from(text, "utf8")`: the UTF-8 form of a JavaScript string (RFC 3629),
    with each lone surrogate replaced by U+FFFD, and a strict UTF-8 decoder that
    serves as its reference. */
module Utf8 {
  import opened Text
  import opened Wrappers

  newtype Byte = x: int | 0 <= x < 0x100

  /** A Unicode scalar value: a code point that is not a surrogate. */
  predicate IsScalar(cp: int)
  {
    0 <= cp < 0x11_0000 && !(0xD800 <= cp <= 0xDFFF)
  }

  /** U+FFFD REPLACEMENT CHARACTER, written in place of a lone surrogate. */
  const REPLACEMENT: int := 0xFFFD

  /** The 1- to 4-byte UTF-8 form of one scalar value. */
  function EncodeScalar(cp: int): (r: seq<Byte>)
    requires IsScalar(cp)
    ensures |r| == (if cp < 0x80 then 1 else if cp < 0x800 then 2 else if cp < 0x1_0000 then 3 else 4)
  {
    if cp < 0x80 then
      [cp as Byte]
    else if cp < 0x800 then
      [(0xC0 + cp / 0x40) as Byte, (0x80 + cp % 0x40) as Byte]
    else if cp < 0x1_0000 then
      [(0xE0 + cp / 0x1000) as Byte, (0x80 + cp / 0x40 % 0x40) as Byte, (0x80 + cp % 0x40) as Byte]
    else
      [(0xF0 + cp / 0x4_0000) as Byte, (0x80 + cp / 0x1000 % 0x40) as Byte,
       (0x80 + cp / 0x40 % 0x40) as Byte, (0x80 + cp % 0x40) as Byte]
  }

  /** The bytes of a string: a surrogate pair takes the four bytes of its code point,
      a lone surrogate the three bytes of U+FFFD, any other code unit one to three. So
      the byte length (the stored `size`) lies between the string's length and three
      times it. */
  function Encode(s: JsString): (r: seq<Byte>)
    ensures |s| <= |r| <= 3 * |s|
    decreases |s|
  {
    if s == [] then []
    else if PairAt(s, 0) then EncodeScalar(PairValue(s[0], s[1])) + Encode(s[2..])
    else if IsSurrogate(s[0]) then EncodeScalar(REPLACEMENT) + Encode(s[1..])
    else EncodeScalar(s[0] as int) + Encode(s[1..])
  }

  /** The string with every lone surrogate replaced by U+FFFD. */
  function Scrub(s: JsString): (r: JsString)
    ensures |r| == |s|
    ensures WellFormed(r)
    decreases |s|
  {
    if s == [] then []
    else if PairAt(s, 0) then [s[0], s[1]] + Scrub(s[2..])
    else if IsSurrogate(s[0]) then [REPLACEMENT as CodeUnit] + Scrub(s[1..])
    else [s[0]] + Scrub(s[1..])
  }

  predicate IsContinuation(b: Byte) { 0x80 <= b < 0xC0 }

  /** The scalar value that b starts with and the number of bytes it takes, refusing
      overlong forms, surrogates and values above U+10FFFF. */
  function DecodeFirst(b: seq<Byte>): (r: Option<(int, nat)>)
    requires |b| > 0
    ensures r.Some? ==> IsScalar(r.value.0) && 1 <= r.value.1 <= |b|
  {
    var b0 := b[0] as int;
    if b0 < 0x80 then
      Some((b0, 1))
    else if 0xC2 <= b0 < 0xE0 then
      if |b| >= 2 && IsContinuation(b[1]) then
        Some(((b0 - 0xC0) * 0x40 + (b[1] as int - 0x80), 2))
      else None
    else if 0xE0 <= b0 < 0xF0 then
      if |b| >= 3 && IsContinuation(b[1]) && IsContinuation(b[2]) then
        var cp := (b0 - 0xE0) * 0x1000 + (b[1] as int - 0x80) * 0x40 + (b[2] as int - 0x80);
        if 0x800 <= cp && !(0xD800 <= cp <= 0xDFFF) then Some((cp, 3)) else None
      else None
    else if 0xF0 <= b0 < 0xF5 then
      if |b| >= 4 && IsContinuation(b[1]) && IsContinuation(b[2]) && IsContinuation(b[3]) then
        var cp := (b0 - 0xF0) * 0x4_0000 + (b[1] as int - 0x80) * 0x1000
                  + (b[2] as int - 0x80) * 0x40 + (b[3] as int - 0x80);
        if 0x1_0000 <= cp < 0x11_0000 then Some((cp, 4)) else None
      else None
    else None
  }

  /** Strict UTF-8 decoding into UTF-16 code units; None for ill-formed input. */
  function Decode(b: seq<Byte>): (r: Option<JsString>)
    ensures r.Some? ==> WellFormed(r.value)
    decreases |b|
  {
    if b == [] then Some([])
    else match DecodeFirst(b)
      case None => None
      case Some((cp, n)) =>
        match Decode(b[n..])
        case None => None
        case Some(rest) => Some(CodePointUnits(cp) + rest)
  }

  lemma ScalarDigits2(cp: int)
    requires 0x80 <= cp < 0x800
    ensures (cp / 0x40) * 0x40 + cp % 0x40 == cp
  {
  }

  lemma ScalarDigits3(cp: int)
    requires 0x800 <= cp < 0x1_0000
    ensures (cp / 0x1000) * 0x1000 + (cp / 0x40 % 0x40) * 0x40 + cp % 0x40 == cp
  {
    var q := cp / 0x40;
    assert cp == q * 0x40 + cp % 0x40;
    assert q == (q / 0x40) * 0x40 + q % 0x40;
    assert q / 0x40 == cp / 0x1000;
  }

  lemma ScalarDigits4(cp: int)
    requires 0x1_0000 <= cp < 0x11_0000
    ensures (cp / 0x4_0000) * 0x4_0000 + (cp / 0x1000 % 0x40) * 0x1000 + (cp / 0x40 % 0x40) * 0x40 + cp % 0x40 == cp
  {
    var q := cp / 0x40;
    var q2 := q / 0x40;
    assert cp == q * 0x40 + cp % 0x40;
    assert q == q2 * 0x40 + q % 0x40;
    assert q2 == cp / 0x1000;
    assert q2 == (q2 / 0x40) * 0x40 + q2 % 0x40;
    assert q2 / 0x40 == cp / 0x4_0000;
  }

  /** The decoder reads back the scalar value that EncodeScalar wrote, whatever follows. */
  lemma DecodeFirstEncodeScalar(cp: int, rest: seq<Byte>)
    requires IsScalar(cp)
    ensures DecodeFirst(EncodeScalar(cp) + rest) == Some((cp, |EncodeScalar(cp)|))
  {
    var b := EncodeScalar(cp) + rest;
    if cp < 0x80 {
    } else if cp < 0x800 {
      ScalarDigits2(cp);
      assert b[0] as int == 0xC0 + cp / 0x40 && b[1] as int == 0x80 + cp % 0x40;
    } else if cp < 0x1_0000 {
      ScalarDigits3(cp);
      assert b[0] as int == 0xE0 + cp / 0x1000 && b[1] as int == 0x80 + cp / 0x40 % 0x40
        && b[2] as int == 0x80 + cp % 0x40;
    } else {
      ScalarDigits4(cp);
      assert b[0] as int == 0xF0 + cp / 0x4_0000 && b[1] as int == 0x80 + cp / 0x1000 % 0x40
        && b[2] as int == 0x80 + cp / 0x40 % 0x40 && b[3] as int == 0x80 + cp % 0x40;
    }
  }

  /** Decoding the leading scalar of a byte string and then its remainder. */
  lemma DecodeEncodeScalar(cp: int, rest: seq<Byte>)
    requires IsScalar(cp)
    ensures Decode(EncodeScalar(cp) + rest) ==
            match Decode(rest) case None => None case Some(t) => Some(CodePointUnits(cp) + t)
  {
    var e := EncodeScalar(cp);
    DecodeFirstEncodeScalar(cp, rest);
    assert (e + rest)[|e|..] == rest;
  }

  /** A surrogate pair turned into its code point and back gives the same pair. */
  lemma PairRoundTrip(hi: CodeUnit, lo: CodeUnit)
    requires IsHighSurrogate(hi) && IsLowSurrogate(lo)
    ensures CodePointUnits(PairValue(hi, lo)) == [hi, lo]
  {
    var r := CodePointUnits(PairValue(hi, lo));
    assert PairValue(r[0], r[1]) == PairValue(hi, lo);
    assert (r[0] as int - hi as int) * 0x400 == lo as int - r[1] as int;
  }

  /** Decoding the encoder's bytes gives back the string with its lone surrogates
      replaced by U+FFFD: the stored bytes carry exactly that text. */
  lemma {:induction false} DecodeEncode(s: JsString)
    ensures Decode(Encode(s)) == Some(Scrub(s))
    decreases |s|
  {
    if s == [] {
    } else if PairAt(s, 0) {
      var cp := PairValue(s[0], s[1]);
      DecodeEncode(s[2..]);
      DecodeEncodeScalar(cp, Encode(s[2..]));
      PairRoundTrip(s[0], s[1]);
    } else if IsSurrogate(s[0]) {
      DecodeEncode(s[1..]);
      DecodeEncodeScalar(REPLACEMENT, Encode(s[1..]));
    } else {
      DecodeEncode(s[1..]);
      DecodeEncodeScalar(s[0] as int, Encode(s[1..]));
    }
  }

  /** A well-formed string has nothing to scrub. */
  lemma {:induction false} ScrubWellFormed(s: JsString)
    requires WellFormed(s)
    ensures Scrub(s) == s
    decreases |s|
  {
    if s == [] {
    } else if PairAt(s, 0) {
      ScrubWellFormed(s[2..]);
      assert s == [s[0], s[1]] + s[2..];
    } else {
      ScrubWellFormed(s[1..]);
      assert s == [s[0]] + s[1..];
    }
  }

  /** Well-formed text survives encoding and decoding unchanged; so two different
      well-formed strings never have the same bytes. */
  lemma EncodeRoundTrip(s: JsString)
    requires WellFormed(s)
    ensures Decode(Encode(s)) == Some(s)
  {
    DecodeEncode(s);
    ScrubWellFormed(s);
  }

  lemma EncodeInjective(s: JsString, t: JsString)
    requires WellFormed(s) && WellFormed(t)
    requires Encode(s) == Encode(t)
    ensures s == t
  {
    EncodeRoundTrip(s);
    EncodeRoundTrip(t);
  }

  /** An ASCII string takes one byte per code unit, equal to it. */
  lemma {:induction false} EncodeAscii(s: JsString)
    requires forall i :: 0 <= i < |s| ==> s[i] < 0x80
    ensures |Encode(s)| == |s|
    ensures forall i :: 0 <= i < |s| ==> Encode(s)[i] as int == s[i] as int
    decreases |s|
  {
    if s != [] {
      assert !PairAt(s, 0) && !IsSurrogate(s[0]);
      EncodeAscii(s[1..]);
      assert Encode(s) == [s[0] as Byte] + Encode(s[1..]);
    }
  }
}
