/** The storage key `${folder}/${Date.now()}_${safe}`. */
module ObjectKey {
  import opened Text

  predicate IsDigit(u: CodeUnit) { 0x30 <= u <= 0x39 }

  /** Number::toString of a non-negative integer below 10^21, such as a value of
      Date.now(): its decimal digits, without leading zeros. */
  function Decimal(n: nat): (r: JsString)
    ensures |r| >= 1
    ensures forall i :: 0 <= i < |r| ==> IsDigit(r[i])
    ensures r[0] == 0x30 ==> n == 0
    decreases n
  {
    if n < 10 then [(0x30 + n) as CodeUnit]
    else Decimal(n / 10) + [(0x30 + n % 10) as CodeUnit]
  }

  /** The number a string of decimal digits denotes. */
  function DigitsValue(s: JsString): nat
    requires forall i :: 0 <= i < |s| ==> IsDigit(s[i])
    decreases |s|
  {
    if s == [] then 0
    else
      assert IsDigit(s[|s| - 1]);
      DigitsValue(s[..|s| - 1]) * 10 + (s[|s| - 1] as int - 0x30)
  }

  /** Reading the digits back gives the number. */
  lemma {:induction false} DecimalValue(n: nat)
    ensures DigitsValue(Decimal(n)) == n
    decreases n
  {
    if n >= 10 {
      DecimalValue(n / 10);
      var d := Decimal(n);
      assert d[..|d| - 1] == Decimal(n / 10);
    }
  }

  lemma DecimalInjective(m: nat, n: nat)
    requires Decimal(m) == Decimal(n)
    ensures m == n
  {
    DecimalValue(m);
    DecimalValue(n);
  }

  /** The object key of a request: folder, "/", the timestamp, "_", the safe name.
      The key starts with the folder and a "/"; when the name holds no "/", nothing
      after that one holds a "/" either, so the object lies directly in the folder. */
  function Key(folder: JsString, stamp: nat, name: JsString): (r: JsString)
    ensures |r| > |folder| && r[..|folder|] == folder && r[|folder|] == SLASH
    ensures SLASH !in name ==> SLASH !in r[|folder| + 1..]
  {
    var rest := Decimal(stamp) + [UNDERSCORE] + name;
    assert SLASH !in Decimal(stamp);
    assert (folder + [SLASH] + rest)[|folder| + 1..] == rest;
    folder + [SLASH] + rest
  }

  /** Splitting at the last occurrence of a separator. */
  lemma SplitLast(a1: JsString, b1: JsString, a2: JsString, b2: JsString, sep: CodeUnit)
    requires a1 + [sep] + b1 == a2 + [sep] + b2
    requires sep !in b1 && sep !in b2
    ensures a1 == a2 && b1 == b2
  {
    var k := a1 + [sep] + b1;
    assert k[|a1|] == sep && k[|a2|] == sep;
    assert forall j :: |a1| < j < |k| ==> k[j] == b1[j - |a1| - 1] != sep;
    assert forall j :: |a2| < j < |k| ==> k[j] == b2[j - |a2| - 1] != sep;
    assert a1 == k[..|a1|] == a2;
    assert b1 == k[|a1| + 1..] == b2;
  }

  /** Splitting at the first occurrence of a separator. */
  lemma SplitFirst(a1: JsString, b1: JsString, a2: JsString, b2: JsString, sep: CodeUnit)
    requires a1 + [sep] + b1 == a2 + [sep] + b2
    requires sep !in a1 && sep !in a2
    ensures a1 == a2 && b1 == b2
  {
    var k := a1 + [sep] + b1;
    assert k[|a1|] == sep && k[|a2|] == sep;
    assert forall j :: 0 <= j < |a1| ==> k[j] == a1[j] != sep;
    assert forall j :: 0 <= j < |a2| ==> k[j] == a2[j] != sep;
    assert a1 == k[..|a1|] == a2;
    assert b1 == k[|a1| + 1..] == b2;
  }

  /** Two keys collide only when the folders, the timestamps and the safe names are
      all equal: distinct requests in the same millisecond for the same sanitised name
      in the same folder are the only way to overwrite an object. */
  lemma KeyInjective(f1: JsString, t1: nat, n1: JsString, f2: JsString, t2: nat, n2: JsString)
    requires SLASH !in n1 && SLASH !in n2
    requires Key(f1, t1, n1) == Key(f2, t2, n2)
    ensures f1 == f2 && t1 == t2 && n1 == n2
  {
    var d1, d2 := Decimal(t1), Decimal(t2);
    var r1, r2 := d1 + [UNDERSCORE] + n1, d2 + [UNDERSCORE] + n2;
    assert Key(f1, t1, n1) == f1 + [SLASH] + r1;
    assert Key(f2, t2, n2) == f2 + [SLASH] + r2;
    assert SLASH !in r1 && SLASH !in r2;
    SplitLast(f1, r1, f2, r2, SLASH);
    assert UNDERSCORE !in d1 && UNDERSCORE !in d2;
    SplitFirst(d1, n1, d2, n2, UNDERSCORE);
    DecimalInjective(t1, t2);
  }

  /** The key of `a.json` saved in `exports` at time 42, written out as text. */
  lemma KeyExample()
    ensures Key(Ascii("exports"), 42, Ascii("a.json")) == Ascii("exports/42_a.json")
  {
    var folder: JsString := [0x65, 0x78, 0x70, 0x6F, 0x72, 0x74, 0x73];
    var name: JsString := [0x61, 0x2E, 0x6A, 0x73, 0x6F, 0x6E];
    assert Ascii("exports") == folder;
    assert Ascii("a.json") == name;
    assert Decimal(42) == [0x34, 0x32];
    assert Key(folder, 42, name) == folder + [SLASH] + ([0x34, 0x32] + [UNDERSCORE] + name);
    KeyExampleText(folder, name);
  }

  lemma KeyExampleText(folder: JsString, name: JsString)
    requires folder == [0x65, 0x78, 0x70, 0x6F, 0x72, 0x74, 0x73]
    requires name == [0x61, 0x2E, 0x6A, 0x73, 0x6F, 0x6E]
    ensures folder + [SLASH] + ([0x34, 0x32] + [UNDERSCORE] + name) == Ascii("exports/42_a.json")
  {
    var text: JsString := [0x65, 0x78, 0x70, 0x6F, 0x72, 0x74, 0x73, SLASH, 0x34, 0x32, UNDERSCORE,
                           0x61, 0x2E, 0x6A, 0x73, 0x6F, 0x6E];
    assert Ascii("exports/42_a.json") == text;
    assert text[..8] == folder + [SLASH] && text[8..] == [0x34, 0x32] + [UNDERSCORE] + name;
    assert text == text[..8] + text[8..];
  }
}
