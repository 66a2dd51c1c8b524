/** The JavaScript values that a parsed request body can hold, and the three
    language operations the handler applies to them: truthiness (`!x`, `x ? a : b`),
    property lookup with destructuring defaults, and ToString (`String(x)`, `${x}`). */
module Js {
  import opened Text
  import opened Wrappers

  /** A Number. Its decimal rendering (Number::toString) is floating-point behaviour
      of the host and is passed in where it is needed. Both zeros are Finite(0.0). */
  datatype Number = NaN | Infinity(negative: bool) | Finite(value: real)

  /** A value of the body, tagged by its `typeof` class. An Object lists its own
      enumerable properties in their enumeration order, under distinct keys. */
  datatype JsValue =
    | Undefined
    | Null
    | Bool(b: bool)
    | Num(n: Number)
    | Str(s: JsString)
    | Array(elements: seq<JsValue>)
    | Object(properties: seq<Property>)

  datatype Property = Property(key: JsString, value: JsValue)

  /** ToBoolean (section 7.1.2 of ECMA-262): the falsy values are exactly undefined,
      null, false, NaN, the zeros and "". */
  predicate Truthy(v: JsValue)
    ensures !Truthy(v) <==> v == Undefined || v == Null || v == Bool(false) || v == Num(NaN) || v == Num(Finite(0.0)) || v == Str([])
  {
    match v
    case Undefined => false
    case Null => false
    case Bool(b) => b
    case Num(n) => !(n.NaN? || n == Finite(0.0))
    case Str(s) => s != []
    case Array(_) => true
    case Object(_) => true
  }

  /** The own property `key` of an object with properties ps: the scan stops at the
      first property with that key. */
  function Lookup(ps: seq<Property>, key: JsString): (r: JsValue)
    ensures r != Undefined ==> HasProperty(ps, key, r)
  {
    if ps == [] then Undefined
    else if ps[0].key == key then ps[0].value
    else Lookup(ps[1..], key)
  }

  /** Lookup gives undefined when no property has the key, and otherwise the value of
      the first one that has it. */
  lemma {:induction false} LookupFirst(ps: seq<Property>, key: JsString)
    ensures (forall i :: 0 <= i < |ps| ==> ps[i].key != key) ==> Lookup(ps, key) == Undefined
    ensures forall i :: 0 <= i < |ps| && ps[i].key == key && (forall j :: 0 <= j < i ==> ps[j].key != key) ==>
      Lookup(ps, key) == ps[i].value
    decreases |ps|
  {
    if ps != [] && ps[0].key != key {
      var tail := ps[1..];
      LookupFirst(tail, key);
      assert forall i :: 1 <= i < |ps| ==> ps[i] == tail[i - 1];
    }
  }

  /** Some own property is `key: value`. */
  predicate HasProperty(ps: seq<Property>, key: JsString, value: JsValue)
  {
    exists i :: 0 <= i < |ps| && ps[i].key == key && ps[i].value == value
  }

  predicate HasOwn(ps: seq<Property>, key: JsString)
  {
    exists i :: 0 <= i < |ps| && ps[i].key == key
  }

  /** `v.key` for the names the handler reads. None of them is defined on a prototype,
      so on a primitive, an array or an object without that own key it is undefined. */
  function Get(v: JsValue, key: JsString): (r: JsValue)
    ensures !v.Object? ==> r == Undefined
    ensures v.Object? && !HasOwn(v.properties, key) ==> r == Undefined
  {
    if v.Object? then
      LookupFirst(v.properties, key);
      Lookup(v.properties, key)
    else Undefined
  }

  /** A destructuring default `{ x = d } = ...`: applies when the value is undefined,
      and only then. */
  function OrDefault(v: JsValue, d: JsValue): (r: JsValue)
    ensures r == d <==> v == Undefined || v == d
    ensures !v.Undefined? ==> r == v
  {
    if v.Undefined? then d else v
  }

  /** ToString (section 7.1.17 of ECMA-262) on body values; None is the TypeError it
      throws. An object's ToPrimitive looks up `toString`, then `valueOf`: a parsed
      object with an own "toString" key holds no function there, and `valueOf` yields
      the object itself, so the conversion throws; otherwise Object.prototype.toString
      answers "[object Object]". An array converts by `join(",")`, in which undefined
      and null elements become "". */
  function ToStr(numberToString: Number -> JsString, v: JsValue): (r: Option<JsString>)
    ensures v.Str? ==> r == Some(v.s)
    ensures r.None? ==> v.Array? || v.Object?
    decreases v
  {
    match v
    case Undefined => Some(Ascii("undefined"))
    case Null => Some(Ascii("null"))
    case Bool(b) => Some(if b then Ascii("true") else Ascii("false"))
    case Num(n) => Some(numberToString(n))
    case Str(s) => Some(s)
    case Array(es) => Join(numberToString, es)
    case Object(ps) => if HasOwn(ps, Ascii("toString")) then None else Some(Ascii("[object Object]"))
  }

  /** Array.prototype.join with separator ",". */
  function Join(numberToString: Number -> JsString, es: seq<JsValue>): (r: Option<JsString>)
    ensures r.None? ==> exists i :: 0 <= i < |es| && (es[i].Array? || es[i].Object?)
    decreases es
  {
    if es == [] then Some([])
    else
      var first := if es[0].Undefined? || es[0].Null? then Some([]) else ToStr(numberToString, es[0]);
      if |es| == 1 then first
      else match (first, Join(numberToString, es[1..]))
        case (Some(f), Some(rest)) => Some(f + [COMMA] + rest)
        case _ => None
  }

  /** The only values ToString (on body values) throws on are objects with an own
      "toString" key, reached directly or through array elements. */
  ghost predicate HoldsToStringTrap(v: JsValue)
    decreases v
  {
    match v
    case Array(es) => exists i :: 0 <= i < |es| && HoldsToStringTrap(es[i])
    case Object(ps) => HasOwn(ps, Ascii("toString"))
    case _ => false
  }

  lemma {:induction false} ToStrThrowsOnlyOnTrap(numberToString: Number -> JsString, v: JsValue)
    ensures ToStr(numberToString, v).None? <==> HoldsToStringTrap(v)
    decreases v
  {
    if v.Array? {
      JoinThrowsOnlyOnTrap(numberToString, v.elements);
    }
  }

  lemma {:induction false} JoinThrowsOnlyOnTrap(numberToString: Number -> JsString, es: seq<JsValue>)
    ensures Join(numberToString, es).None? <==> exists i :: 0 <= i < |es| && HoldsToStringTrap(es[i])
    decreases es
  {
    if es != [] {
      ToStrThrowsOnlyOnTrap(numberToString, es[0]);
      if |es| > 1 {
        JoinThrowsOnlyOnTrap(numberToString, es[1..]);
        if exists i :: 0 <= i < |es| && HoldsToStringTrap(es[i]) {
          var i :| 0 <= i < |es| && HoldsToStringTrap(es[i]);
          if i > 0 { assert es[1..][i - 1] == es[i]; }
        }
        if exists i :: 0 <= i < |es| - 1 && HoldsToStringTrap(es[1..][i]) {
          var i :| 0 <= i < |es| - 1 && HoldsToStringTrap(es[1..][i]);
          assert es[i + 1] == es[1..][i];
        }
      }
    }
  }

  /** `String()` of arrays joins their elements with ",", undefined and null giving
      "", nested arrays flattened the same way; a plain object gives "[object Object]". */
  lemma ToStrExamples(numberToString: Number -> JsString, a: JsString, b: JsString)
    ensures ToStr(numberToString, Array([Str(a), Null, Str(b)])) == Some(a + [COMMA, COMMA] + b)
    ensures ToStr(numberToString, Array([Array([Str(a), Str(b)]), Undefined])) == Some(a + [COMMA] + b + [COMMA])
    ensures ToStr(numberToString, Object([])) == Some(Ascii("[object Object]"))
  {
    var empty: JsString := [];
    var three := [Str(a), Null, Str(b)];
    assert three[1..] == [Null, Str(b)] && three[1..][1..] == [Str(b)];
    assert Join(numberToString, [Null, Str(b)]) == Some(empty + [COMMA] + b);
    assert a + [COMMA] + (empty + [COMMA] + b) == a + [COMMA, COMMA] + b;
    var pair := [Array([Str(a), Str(b)]), Undefined];
    assert pair[1..] == [Undefined] && [Str(a), Str(b)][1..] == [Str(b)];
    assert Join(numberToString, [Undefined]) == Some(empty);
    assert Join(numberToString, [Str(a), Str(b)]) == Some(a + [COMMA] + b);
    assert ToStr(numberToString, Array([Str(a), Str(b)])) == Some(a + [COMMA] + b);
    assert Join(numberToString, pair) == Some(a + [COMMA] + b + [COMMA] + empty);
    assert a + [COMMA] + b + [COMMA] + empty == a + [COMMA] + b + [COMMA];
  }
}
