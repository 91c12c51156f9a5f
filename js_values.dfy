/**
 * JavaScript values as the resource handlers see them in a JSON body, with
 * the two tests they apply: truthiness and `typeof v === 'number'`.
 */
module JsValues {
  import Text

  datatype JsValue =
    | Undefined
    | Null
    | Bool(b: bool)
    | Num(n: real)
    | NaN
    | Str(s: string)
    | Obj            // an object or array; always truthy

  /** The falsy values: undefined, null, false, 0, NaN and "". */
  predicate Falsy(v: JsValue) {
    v.Undefined? || v.Null? || v == Bool(false) || v == Num(0.0) || v.NaN? || v == Str("")
  }

  /** `typeof v === 'number'`, which holds for NaN too. */
  predicate IsNumber(v: JsValue) {
    v.Num? || v.NaN?
  }

  /** `v || null`. */
  function OrNull(v: JsValue): (r: JsValue)
    ensures Falsy(v) ==> r == Null
    ensures !Falsy(v) ==> r == v
  {
    if Falsy(v) then Null else v
  }

  /**
   * `Number(v)`. Strings are read as optional surrounding whitespace around
   * decimal digits (the empty string is 0); any other string is NaN here.
   */
  function ToNumber(v: JsValue): (r: JsValue)
    ensures IsNumber(r)
    ensures IsNumber(v) ==> r == v
  {
    match v
    case Undefined => NaN
    case Null => Num(0.0)
    case Bool(b) => Num(if b then 1.0 else 0.0)
    case Num(n) => Num(n)
    case NaN => NaN
    case Str(s) =>
      var t := Text.Trim(s);
      if t == [] then Num(0.0)
      else if forall i :: 0 <= i < |t| ==> Text.IsDigit(t[i]) then Num(Text.DigitsValue(t) as real)
      else NaN
    case Obj => NaN
  }

  /**
   * A value sent through `JSON.stringify` and read back with `JSON.parse`:
   * NaN is written as `null`; the other values come back as they were (a
   * key whose value is undefined is dropped, and an absent key reads back as
   * undefined).
   */
  function JsonRoundTrip(v: JsValue): (r: JsValue)
    ensures !r.NaN?
    ensures IsNumber(r) <==> v.Num?
    ensures Falsy(r) <==> Falsy(v)
    ensures !v.NaN? ==> r == v
  {
    if v.NaN? then Null else v
  }

  /** `Math.round`: the nearest integer, halves upwards. */
  function MathRound(x: real): (n: int)
    ensures x - 0.5 < n as real <= x + 0.5
  {
    (x + 0.5).Floor
  }

  /**
   * The keys a plain object literal inherits from `Object.prototype`: looking
   * one of them up gives a truthy value that is not a string (a function, or
   * the prototype itself for `__proto__`).
   */
  datatype PrototypeKey =
    | Constructor | DefineGetter | DefineSetter | HasOwnProperty | LookupGetter | LookupSetter
    | IsPrototypeOf | PropertyIsEnumerable | ToString | ValueOf | Proto | ToLocaleString

  function KeyName(k: PrototypeKey): string {
    match k
    case Constructor => "constructor"
    case DefineGetter => "__defineGetter__"
    case DefineSetter => "__defineSetter__"
    case HasOwnProperty => "hasOwnProperty"
    case LookupGetter => "__lookupGetter__"
    case LookupSetter => "__lookupSetter__"
    case IsPrototypeOf => "isPrototypeOf"
    case PropertyIsEnumerable => "propertyIsEnumerable"
    case ToString => "toString"
    case ValueOf => "valueOf"
    case Proto => "__proto__"
    case ToLocaleString => "toLocaleString"
  }

  predicate Inherited(key: string) {
    exists k: PrototypeKey :: KeyName(k) == key
  }

  /** No inherited key starts with a digit, so none is an array index or a grade key. */
  lemma InheritedNotDigit(key: string)
    ensures Inherited(key) ==> key != [] && !('0' <= key[0] <= '9')
  {
    if Inherited(key) {
      var k :| KeyName(k) == key;
      match k
      case Constructor =>
      case DefineGetter =>
      case DefineSetter =>
      case HasOwnProperty =>
      case LookupGetter =>
      case LookupSetter =>
      case IsPrototypeOf =>
      case PropertyIsEnumerable =>
      case ToString =>
      case ValueOf =>
      case Proto =>
      case ToLocaleString =>
    }
  }
}
