/** `JSON.stringify(value, null, 2)` on the values a parsed body can hold (the
    JSON.stringify algorithm, section 25.5.2 of ECMA-262), and a JSON string-literal
    reader (section 7 of RFC 8259) that is the reference for its string escaping.

    Parsed data holds no functions, so no `toJSON` is ever called and no replacer is
    given; the gap is two spaces. Number text is the host's Number::toString. */
module Json {
  import opened Text
  import opened Js
  import opened Wrappers

  /** The indentation unit of `JSON.stringify(_, null, 2)`. */
  const GAP: JsString := [SPACE, SPACE]

  function HexDigit(d: int): (u: CodeUnit)
    requires 0 <= d < 16
  {
    if d < 10 then (0x30 + d) as CodeUnit else (0x61 + d - 10) as CodeUnit
  }

  /** UnicodeEscape: "\u" and four lowercase hexadecimal digits. */
  function UnicodeEscape(u: CodeUnit): JsString
  {
    [BACKSLASH, 0x75, HexDigit(u as int / 0x1000), HexDigit(u as int / 0x100 % 0x10),
     HexDigit(u as int / 0x10 % 0x10), HexDigit(u as int % 0x10)]
  }

  /** The escape of one code unit that is not part of a surrogate pair. */
  function EscapeUnit(u: CodeUnit): JsString
  {
    if u == 0x08 then [BACKSLASH, 0x62]             // \b
    else if u == 0x09 then [BACKSLASH, 0x74]        // \t
    else if u == LINE_FEED then [BACKSLASH, 0x6E]   // \n
    else if u == 0x0C then [BACKSLASH, 0x66]        // \f
    else if u == 0x0D then [BACKSLASH, 0x72]        // \r
    else if u == QUOTE then [BACKSLASH, QUOTE]
    else if u == BACKSLASH then [BACKSLASH, BACKSLASH]
    else if u < 0x20 || IsSurrogate(u) then UnicodeEscape(u)
    else [u]
  }

  /** QuoteJSONString without its enclosing quotes: surrogate pairs are kept, lone
      surrogates and control characters are escaped. The result holds no control
      character and no lone surrogate. */
  function QuoteBody(s: JsString): (r: JsString)
    ensures forall i :: 0 <= i < |r| ==> r[i] >= 0x20
    ensures WellFormed(r)
    decreases |s|
  {
    if s == [] then []
    else if PairAt(s, 0) then
      var rest := QuoteBody(s[2..]);
      assert ([s[0], s[1]] + rest)[2..] == rest;
      [s[0], s[1]] + rest
    else
      var rest := QuoteBody(s[1..]);
      EscapePrefix(s[0], rest);
      EscapeUnit(s[0]) + rest
  }

  lemma {:induction false} EscapePrefix(u: CodeUnit, rest: JsString)
    requires WellFormed(rest)
    ensures WellFormed(EscapeUnit(u) + rest)
  {
    var e := EscapeUnit(u);
    assert forall i :: 0 <= i < |e| ==> !IsSurrogate(e[i]);
    WellFormedNoSurrogatePrefix(e, rest);
  }

  lemma {:induction false} WellFormedNoSurrogatePrefix(e: JsString, rest: JsString)
    requires forall i :: 0 <= i < |e| ==> !IsSurrogate(e[i])
    requires WellFormed(rest)
    ensures WellFormed(e + rest)
    decreases |e|
  {
    if e != [] {
      WellFormedNoSurrogatePrefix(e[1..], rest);
      var s := e + rest;
      assert s[1..] == e[1..] + rest;
      assert !PairAt(s, 0) && !IsSurrogate(s[0]);
    } else {
      assert e + rest == rest;
    }
  }

  /** QuoteJSONString: the literal is enclosed in double quotes and holds no control
      character (`UnquoteQuote` reads it back). */
  function Quote(s: JsString): (r: JsString)
    ensures |r| >= 2 && r[0] == QUOTE && r[|r| - 1] == QUOTE
    ensures forall i :: 0 <= i < |r| ==> r[i] >= 0x20
  {
    [QUOTE] + QuoteBody(s) + [QUOTE]
  }

  function NumberText(numberToString: Number -> JsString, n: Number): JsString
  {
    if n.Finite? then numberToString(n) else Ascii("null")
  }

  /** SerializeJSONProperty at the given indentation; None is `undefined`. */
  function Serialize(numberToString: Number -> JsString, v: JsValue, indent: JsString): (r: Option<JsString>)
    ensures r.None? <==> v.Undefined?
    ensures v.Str? ==> r == Some(Quote(v.s))
    ensures v.Object? ==> |r.value| >= 2 && r.value[0] == 0x7B && r.value[|r.value| - 1] == 0x7D
    ensures v.Array? ==> |r.value| >= 2 && r.value[0] == 0x5B && r.value[|r.value| - 1] == 0x5D
    decreases v
  {
    match v
    case Undefined => None
    case Null => Some(Ascii("null"))
    case Bool(b) => Some(if b then Ascii("true") else Ascii("false"))
    case Num(n) => Some(NumberText(numberToString, n))
    case Str(s) => Some(Quote(s))
    case Array(es) => Some(Wrap(0x5B, 0x5D, ElementTexts(numberToString, es, indent + GAP), indent))
    case Object(ps) => Some(Wrap(0x7B, 0x7D, MemberTexts(numberToString, ps, indent + GAP), indent))
  }

  /** SerializeJSONArray: one text per element, "null" for an undefined one. */
  function ElementTexts(numberToString: Number -> JsString, es: seq<JsValue>, inner: JsString): (r: seq<JsString>)
    ensures |r| == |es|
    decreases es
  {
    if es == [] then []
    else [Serialize(numberToString, es[0], inner).GetOr(Ascii("null"))] + ElementTexts(numberToString, es[1..], inner)
  }

  /** SerializeJSONObject: `"key": value` per property, skipping undefined values. */
  function MemberTexts(numberToString: Number -> JsString, ps: seq<Property>, inner: JsString): (r: seq<JsString>)
    ensures |r| <= |ps|
    ensures (forall i :: 0 <= i < |ps| ==> !ps[i].value.Undefined?) ==> |r| == |ps|
    decreases ps
  {
    if ps == [] then []
    else match MemberText(numberToString, ps[0], inner)
      case None => MemberTexts(numberToString, ps[1..], inner)
      case Some(t) => [t] + MemberTexts(numberToString, ps[1..], inner)
  }

  function MemberText(numberToString: Number -> JsString, p: Property, inner: JsString): Option<JsString>
    decreases p
  {
    match Serialize(numberToString, p.value, inner)
    case None => None
    case Some(t) => Some(Quote(p.key) + [COLON, SPACE] + t)
  }

  /** The layout of a non-empty array or object: the opening bracket, a line feed and
      the inner indentation before each part, ",\n" between parts, a line feed and the
      outer indentation before the closing bracket. Empty ones are "[]" and "{}". */
  function Wrap(open: CodeUnit, close: CodeUnit, parts: seq<JsString>, indent: JsString): (r: JsString)
    ensures |r| >= 2 && r[0] == open && r[|r| - 1] == close
  {
    if parts == [] then [open, close]
    else
      var inner := indent + GAP;
      [open, LINE_FEED] + inner + JoinWith(parts, [COMMA, LINE_FEED] + inner) + [LINE_FEED] + indent + [close]
  }

  function JoinWith(parts: seq<JsString>, sep: JsString): JsString
    requires parts != []
  {
    if |parts| == 1 then parts[0] else parts[0] + sep + JoinWith(parts[1..], sep)
  }

  /** `JSON.stringify(v, null, 2)`. */
  function Stringify(numberToString: Number -> JsString, v: JsValue): (r: Option<JsString>)
    ensures r.None? <==> v.Undefined?
  {
    Serialize(numberToString, v, [])
  }

  /** The example `{ x: 1 }` is written as the twelve code units `{\n  "x": 1\n}`. */
  lemma StringifyExample(numberToString: Number -> JsString)
    requires numberToString(Finite(1.0)) == Ascii("1")
    ensures Stringify(numberToString, Object([Property(Ascii("x"), Num(Finite(1.0)))]))
            == Some([0x7B, LINE_FEED, SPACE, SPACE, QUOTE, 0x78, QUOTE, COLON, SPACE, 0x31, LINE_FEED, 0x7D])
  {
    var x: JsString := [0x78];
    assert Ascii("x") == x;
    var member: JsString := [QUOTE, 0x78, QUOTE, COLON, SPACE, 0x31];
    ExampleMember(numberToString, x, member);
    var parts := MemberTexts(numberToString, [Property(x, Num(Finite(1.0)))], GAP);
    assert parts == [member];
    ExampleLayout(member);
  }

  lemma ExampleMember(numberToString: Number -> JsString, x: JsString, member: JsString)
    requires numberToString(Finite(1.0)) == Ascii("1")
    requires x == [0x78] && member == [QUOTE, 0x78, QUOTE, COLON, SPACE, 0x31]
    ensures MemberText(numberToString, Property(x, Num(Finite(1.0))), GAP) == Some(member)
  {
    assert Ascii("1") == [0x31];
    assert QuoteBody(x) == EscapeUnit(0x78) + QuoteBody([]);
    assert Quote(x) == [QUOTE, 0x78, QUOTE];
    assert Serialize(numberToString, Num(Finite(1.0)), GAP) == Some([0x31]);
    assert Quote(x) + [COLON, SPACE] + [0x31] == member;
  }

  lemma ExampleLayout(member: JsString)
    requires member == [QUOTE, 0x78, QUOTE, COLON, SPACE, 0x31]
    ensures Wrap(0x7B, 0x7D, [member], [])
            == [0x7B, LINE_FEED, SPACE, SPACE, QUOTE, 0x78, QUOTE, COLON, SPACE, 0x31, LINE_FEED, 0x7D]
  {
    var empty: JsString := [];
    assert empty + GAP == GAP;
    assert JoinWith([member], [COMMA, LINE_FEED] + GAP) == member;
  }

  /** A nested, two-member example: `{ a: [1], b: true }` is written with the array's
      element one level deeper, the closing bracket back at the member's level, and
      ",\n" between the two members. */
  lemma NestedExample(numberToString: Number -> JsString)
    requires numberToString(Finite(1.0)) == Ascii("1")
    ensures Stringify(numberToString,
              Object([Property(Ascii("a"), Array([Num(Finite(1.0))])), Property(Ascii("b"), Bool(true))]))
            == Some(Ascii("{\n  \"a\": [\n    1\n  ],\n  \"b\": true\n}"))
  {
    var ps := [Property(Ascii("a"), Array([Num(Finite(1.0))])), Property(Ascii("b"), Bool(true))];
    var arrayText: JsString := [0x5B, LINE_FEED, SPACE, SPACE, SPACE, SPACE, 0x31, LINE_FEED, SPACE, SPACE, 0x5D];
    var memberA := [QUOTE, 0x61, QUOTE, COLON, SPACE] + arrayText;
    var memberB: JsString := [QUOTE, 0x62, QUOTE, COLON, SPACE, 0x74, 0x72, 0x75, 0x65];
    NestedMembers(numberToString, ps, arrayText, memberA, memberB);
    var empty: JsString := [];
    assert empty + GAP == GAP;
    assert Stringify(numberToString, Object(ps)) == Some(Wrap(0x7B, 0x7D, [memberA, memberB], []));
    TwoPartLayout(0x7B, 0x7D, memberA, memberB);
    NestedText(arrayText, memberA, memberB);
  }

  lemma NestedArray(numberToString: Number -> JsString, arrayText: JsString)
    requires numberToString(Finite(1.0)) == Ascii("1")
    requires arrayText == [0x5B, LINE_FEED, SPACE, SPACE, SPACE, SPACE, 0x31, LINE_FEED, SPACE, SPACE, 0x5D]
    ensures Serialize(numberToString, Array([Num(Finite(1.0))]), GAP) == Some(arrayText)
  {
    var one: JsString := [0x31];
    assert Ascii("1") == one;
    var inner := GAP + GAP;
    assert ElementTexts(numberToString, [Num(Finite(1.0))], inner) == [one];
    assert JoinWith([one], [COMMA, LINE_FEED] + inner) == one;
    assert Wrap(0x5B, 0x5D, [one], GAP) == [0x5B, LINE_FEED] + inner + one + [LINE_FEED] + GAP + [0x5D];
    assert [0x5B, LINE_FEED] + inner + one + [LINE_FEED] + GAP + [0x5D] == arrayText;
  }

  /** The member text of a property whose key is one letter. */
  lemma LetterMember(numberToString: Number -> JsString, key: JsString, v: JsValue, indent: JsString, t: JsString)
    requires |key| == 1 && 0x61 <= key[0] <= 0x7A
    requires Serialize(numberToString, v, indent) == Some(t)
    ensures MemberText(numberToString, Property(key, v), indent) == Some([QUOTE, key[0], QUOTE, COLON, SPACE] + t)
  {
    assert QuoteBody(key) == EscapeUnit(key[0]) + QuoteBody([]);
    assert Quote(key) == [QUOTE, key[0], QUOTE];
    assert Quote(key) + [COLON, SPACE] + t == [QUOTE, key[0], QUOTE, COLON, SPACE] + t;
  }

  lemma NestedMembers(numberToString: Number -> JsString, ps: seq<Property>,
                      arrayText: JsString, memberA: JsString, memberB: JsString)
    requires numberToString(Finite(1.0)) == Ascii("1")
    requires ps == [Property(Ascii("a"), Array([Num(Finite(1.0))])), Property(Ascii("b"), Bool(true))]
    requires arrayText == [0x5B, LINE_FEED, SPACE, SPACE, SPACE, SPACE, 0x31, LINE_FEED, SPACE, SPACE, 0x5D]
    requires memberA == [QUOTE, 0x61, QUOTE, COLON, SPACE] + arrayText
    requires memberB == [QUOTE, 0x62, QUOTE, COLON, SPACE, 0x74, 0x72, 0x75, 0x65]
    ensures MemberTexts(numberToString, ps, GAP) == [memberA, memberB]
  {
    NestedArray(numberToString, arrayText);
    LetterMember(numberToString, Ascii("a"), Array([Num(Finite(1.0))]), GAP, arrayText);
    LetterMember(numberToString, Ascii("b"), Bool(true), GAP, Ascii("true"));
    assert Ascii("a")[0] == 0x61 && Ascii("b")[0] == 0x62;
    assert [QUOTE, 0x62, QUOTE, COLON, SPACE] + Ascii("true") == memberB;
    assert ps[1..] == [ps[1]] && ps[1..][1..] == [];
    assert MemberTexts(numberToString, ps[1..], GAP) == [memberB];
  }

  /** The top-level layout of two parts. */
  lemma TwoPartLayout(open: CodeUnit, close: CodeUnit, p: JsString, q: JsString)
    ensures Wrap(open, close, [p, q], [])
            == [open, LINE_FEED, SPACE, SPACE] + p + [COMMA, LINE_FEED, SPACE, SPACE] + q + [LINE_FEED, close]
  {
    var empty: JsString := [];
    assert empty + GAP == GAP;
    assert [p, q][1..] == [q];
    assert JoinWith([p, q], [COMMA, LINE_FEED] + GAP) == p + [COMMA, LINE_FEED, SPACE, SPACE] + q;
  }

  /** The expected text, piece by piece. */
  lemma NestedText(arrayText: JsString, memberA: JsString, memberB: JsString)
    requires arrayText == [0x5B, LINE_FEED, SPACE, SPACE, SPACE, SPACE, 0x31, LINE_FEED, SPACE, SPACE, 0x5D]
    requires memberA == [QUOTE, 0x61, QUOTE, COLON, SPACE] + arrayText
    requires memberB == [QUOTE, 0x62, QUOTE, COLON, SPACE, 0x74, 0x72, 0x75, 0x65]
    ensures Ascii("{\n  \"a\": [\n    1\n  ],\n  \"b\": true\n}")
            == [0x7B, LINE_FEED, SPACE, SPACE] + memberA + [COMMA, LINE_FEED, SPACE, SPACE] + memberB + [LINE_FEED, 0x7D]
  {
    var text: JsString := [0x7B, LINE_FEED, SPACE, SPACE, QUOTE, 0x61, QUOTE, COLON, SPACE,
                           0x5B, LINE_FEED, SPACE, SPACE, SPACE, SPACE, 0x31, LINE_FEED, SPACE, SPACE, 0x5D,
                           COMMA, LINE_FEED, SPACE, SPACE, QUOTE, 0x62, QUOTE, COLON, SPACE,
                           0x74, 0x72, 0x75, 0x65, LINE_FEED, 0x7D];
    NestedLiteral(text);
    NestedPieces(arrayText, memberA, memberB, text);
  }

  lemma NestedLiteral(text: JsString)
    requires text == [0x7B, LINE_FEED, SPACE, SPACE, QUOTE, 0x61, QUOTE, COLON, SPACE,
                      0x5B, LINE_FEED, SPACE, SPACE, SPACE, SPACE, 0x31, LINE_FEED, SPACE, SPACE, 0x5D,
                      COMMA, LINE_FEED, SPACE, SPACE, QUOTE, 0x62, QUOTE, COLON, SPACE,
                      0x74, 0x72, 0x75, 0x65, LINE_FEED, 0x7D]
    ensures Ascii("{\n  \"a\": [\n    1\n  ],\n  \"b\": true\n}") == text
  {
  }

  lemma NestedPieces(arrayText: JsString, memberA: JsString, memberB: JsString, text: JsString)
    requires arrayText == [0x5B, LINE_FEED, SPACE, SPACE, SPACE, SPACE, 0x31, LINE_FEED, SPACE, SPACE, 0x5D]
    requires memberA == [QUOTE, 0x61, QUOTE, COLON, SPACE] + arrayText
    requires memberB == [QUOTE, 0x62, QUOTE, COLON, SPACE, 0x74, 0x72, 0x75, 0x65]
    requires text == [0x7B, LINE_FEED, SPACE, SPACE, QUOTE, 0x61, QUOTE, COLON, SPACE,
                      0x5B, LINE_FEED, SPACE, SPACE, SPACE, SPACE, 0x31, LINE_FEED, SPACE, SPACE, 0x5D,
                      COMMA, LINE_FEED, SPACE, SPACE, QUOTE, 0x62, QUOTE, COLON, SPACE,
                      0x74, 0x72, 0x75, 0x65, LINE_FEED, 0x7D]
    ensures [0x7B, LINE_FEED, SPACE, SPACE] + memberA + [COMMA, LINE_FEED, SPACE, SPACE] + memberB + [LINE_FEED, 0x7D] == text
  {
    assert text[..20] == [0x7B, LINE_FEED, SPACE, SPACE] + memberA;
    assert text[20..24] == [COMMA, LINE_FEED, SPACE, SPACE];
    assert text[24..33] == memberB;
    assert text[33..] == [LINE_FEED, 0x7D];
    assert text == text[..20] + text[20..24] + text[24..33] + text[33..];
  }

  // ---------------------------------------------------------------------------
  // Reading a string literal back.

  function HexValue(u: CodeUnit): Option<int>
  {
    if 0x30 <= u <= 0x39 then Some(u as int - 0x30)
    else if 0x61 <= u <= 0x66 then Some(u as int - 0x61 + 10)
    else if 0x41 <= u <= 0x46 then Some(u as int - 0x41 + 10)
    else None
  }

  function Hex4(a: CodeUnit, b: CodeUnit, c: CodeUnit, d: CodeUnit): Option<CodeUnit>
  {
    match (HexValue(a), HexValue(b), HexValue(c), HexValue(d))
    case (Some(w), Some(x), Some(y), Some(z)) =>
      assert 0 <= w < 16 && 0 <= x < 16 && 0 <= y < 16 && 0 <= z < 16;
      Some((w * 0x1000 + x * 0x100 + y * 0x10 + z) as CodeUnit)
    case _ => None
  }

  function Prepend(u: CodeUnit, o: Option<JsString>): Option<JsString>
  {
    match o
    case None => None
    case Some(t) => Some([u] + t)
  }

  /** The characters of a string literal's body: escapes are decoded; a raw quote or
      control character is refused. */
  function Unescape(t: JsString): Option<JsString>
    decreases |t|
  {
    if t == [] then Some([])
    else if t[0] == BACKSLASH then
      if |t| < 2 then None
      else
        var c := t[1];
        if c == QUOTE || c == BACKSLASH || c == SLASH then Prepend(c, Unescape(t[2..]))
        else if c == 0x62 then Prepend(0x08, Unescape(t[2..]))
        else if c == 0x66 then Prepend(0x0C, Unescape(t[2..]))
        else if c == 0x6E then Prepend(LINE_FEED, Unescape(t[2..]))
        else if c == 0x72 then Prepend(0x0D, Unescape(t[2..]))
        else if c == 0x74 then Prepend(0x09, Unescape(t[2..]))
        else if c == 0x75 && |t| >= 6 then
          match Hex4(t[2], t[3], t[4], t[5])
          case None => None
          case Some(u) => Prepend(u, Unescape(t[6..]))
        else None
    else if t[0] == QUOTE || t[0] < 0x20 then None
    else Prepend(t[0], Unescape(t[1..]))
  }

  /** A string literal: quotes around an escaped body. */
  function Unquote(t: JsString): Option<JsString>
  {
    if |t| >= 2 && t[0] == QUOTE && t[|t| - 1] == QUOTE then Unescape(t[1..|t| - 1]) else None
  }

  lemma HexDigitValue(d: int)
    requires 0 <= d < 16
    ensures HexValue(HexDigit(d)) == Some(d)
  {
  }

  lemma UnicodeEscapeValue(u: CodeUnit)
    ensures Hex4(UnicodeEscape(u)[2], UnicodeEscape(u)[3], UnicodeEscape(u)[4], UnicodeEscape(u)[5]) == Some(u)
  {
    var n := u as int;
    HexDigitValue(n / 0x1000);
    HexDigitValue(n / 0x100 % 0x10);
    HexDigitValue(n / 0x10 % 0x10);
    HexDigitValue(n % 0x10);
    var q := n / 0x10;
    var q2 := q / 0x10;
    assert n == q * 0x10 + n % 0x10;
    assert q == q2 * 0x10 + q % 0x10;
    assert q2 == n / 0x100;
    assert q2 == (q2 / 0x10) * 0x10 + q2 % 0x10;
    assert q2 / 0x10 == n / 0x1000;
  }

  /** Reading back one escaped code unit, whatever follows it. */
  lemma UnescapeEscapeUnit(u: CodeUnit, rest: JsString)
    ensures Unescape(EscapeUnit(u) + rest) == Prepend(u, Unescape(rest))
  {
    var e := EscapeUnit(u);
    var t := e + rest;
    if |e| == 2 {
      assert t[2..] == rest;
    } else if |e| == 6 {
      UnicodeEscapeValue(u);
      assert t[2] == e[2] && t[3] == e[3] && t[4] == e[4] && t[5] == e[5];
      assert t[6..] == rest;
    } else {
      assert t[1..] == rest;
    }
  }

  /** A code unit that needs no escape reads back as itself. */
  lemma UnescapeRaw(u: CodeUnit, rest: JsString)
    requires u >= 0x20 && u != QUOTE && u != BACKSLASH
    ensures Unescape([u] + rest) == Prepend(u, Unescape(rest))
  {
    assert ([u] + rest)[1..] == rest;
  }

  /** Every string survives quoting and reading back. */
  lemma {:induction false} UnescapeQuoteBody(s: JsString)
    ensures Unescape(QuoteBody(s)) == Some(s)
    decreases |s|
  {
    if s == [] {
    } else if PairAt(s, 0) {
      UnescapeQuoteBody(s[2..]);
      UnescapePairStep(s);
    } else {
      UnescapeQuoteBody(s[1..]);
      UnescapeEscapeStep(s);
    }
  }

  lemma UnescapePairStep(s: JsString)
    requires PairAt(s, 0)
    requires Unescape(QuoteBody(s[2..])) == Some(s[2..])
    ensures Unescape(QuoteBody(s)) == Some(s)
  {
    var rest := QuoteBody(s[2..]);
    var t1 := [s[1]] + rest;
    assert QuoteBody(s) == [s[0]] + t1;
    UnescapeRaw(s[1], rest);
    UnescapeRaw(s[0], t1);
    assert [s[1]] + s[2..] == s[1..];
    assert [s[0]] + s[1..] == s;
  }

  lemma UnescapeEscapeStep(s: JsString)
    requires s != [] && !PairAt(s, 0)
    requires Unescape(QuoteBody(s[1..])) == Some(s[1..])
    ensures Unescape(QuoteBody(s)) == Some(s)
  {
    assert QuoteBody(s) == EscapeUnit(s[0]) + QuoteBody(s[1..]);
    UnescapeEscapeUnit(s[0], QuoteBody(s[1..]));
    assert s == [s[0]] + s[1..];
  }

  lemma UnquoteQuote(s: JsString)
    ensures Unquote(Quote(s)) == Some(s)
  {
    var q := Quote(s);
    assert q[1..|q| - 1] == QuoteBody(s);
    UnescapeQuoteBody(s);
  }

  /** Quoting is injective: different strings serialise differently. */
  lemma QuoteInjective(s: JsString, t: JsString)
    requires Quote(s) == Quote(t)
    ensures s == t
  {
    UnquoteQuote(s);
    UnquoteQuote(t);
  }
}
