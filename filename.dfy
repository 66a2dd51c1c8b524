/** The filename sanitiser: `name.replace(/[^a-zA-Z0-9._-]/g, "_")`. The pattern has
    no `u` flag, so it matches single UTF-16 code units; each code unit outside the
    class becomes one "_". */
module Filename {
  import opened Text

  /** Membership in the character class [a-zA-Z0-9._-]. */
  predicate IsSafe(u: CodeUnit)
  {
    || (0x61 <= u <= 0x7A)   // a-z
    || (0x41 <= u <= 0x5A)   // A-Z
    || (0x30 <= u <= 0x39)   // 0-9
    || u == 0x2E             // .
    || u == UNDERSCORE       // _
    || u == 0x2D             // -
  }

  predicate AllSafe(s: JsString)
  {
    forall i :: 0 <= i < |s| ==> IsSafe(s[i])
  }

  function SafeUnit(u: CodeUnit): CodeUnit
  {
    if IsSafe(u) then u else UNDERSCORE
  }

  /** One output code unit per input code unit, each one in the safe class. */
  function Sanitize(s: JsString): (r: JsString)
    ensures |r| == |s|
    ensures AllSafe(r)
  {
    seq(|s|, i requires 0 <= i < |s| => SafeUnit(s[i]))
  }

  /** Position by position, a safe code unit is kept and any other becomes "_". */
  lemma SanitizeAt(s: JsString, i: nat)
    requires i < |s|
    ensures IsSafe(s[i]) ==> Sanitize(s)[i] == s[i]
    ensures !IsSafe(s[i]) ==> Sanitize(s)[i] == UNDERSCORE
  {
  }

  /** A string made only of safe code units is a fixed point, and only such a string. */
  lemma SanitizeFixedPoint(s: JsString)
    ensures Sanitize(s) == s <==> AllSafe(s)
  {
    if AllSafe(s) {
      forall i | 0 <= i < |s| ensures Sanitize(s)[i] == s[i] {
        SanitizeAt(s, i);
      }
    }
  }

  /** Sanitising twice is sanitising once. */
  lemma SanitizeIdempotent(s: JsString)
    ensures Sanitize(Sanitize(s)) == Sanitize(s)
  {
    SanitizeFixedPoint(Sanitize(s));
  }

  /** The sanitised name never holds a "/", so it cannot add a path segment. */
  lemma SanitizeHasNoSlash(s: JsString)
    ensures SLASH !in Sanitize(s)
  {
  }

  /** The path-traversal example: each "/" of "../../etc/passwd" becomes "_" and the
      dots stay, giving ".._.._etc_passwd" (16 code units, as many as the input). */
  lemma SanitizeTraversalExample()
    ensures Sanitize(Ascii("../../etc/passwd")) == Ascii(".._.._etc_passwd")
    ensures Sanitize(Ascii("../../etc/passwd")) != Ascii("......_etc_passwd")
  {
    var name: JsString := [0x2E, 0x2E, 0x2F, 0x2E, 0x2E, 0x2F, 0x65, 0x74, 0x63, 0x2F, 0x70, 0x61, 0x73, 0x73, 0x77, 0x64];
    var safe: JsString := [0x2E, 0x2E, 0x5F, 0x2E, 0x2E, 0x5F, 0x65, 0x74, 0x63, 0x5F, 0x70, 0x61, 0x73, 0x73, 0x77, 0x64];
    assert Ascii("../../etc/passwd") == name;
    assert Ascii(".._.._etc_passwd") == safe;
    assert Sanitize(name) == safe;
  }
}
