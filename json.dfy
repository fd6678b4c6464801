/**
 * The dynamically typed values that `JSON.parse` produces and that the board's
 * records may hold, with the JavaScript conversions the core applies to them:
 * truthiness (`filter(Boolean)`, `||`, `!x`), nullishness (`??`) and `String(x)`.
 */
module Json {
  import Text

  /** A JavaScript number. Finite values are abstracted to integers. */
  datatype JsNumber = Finite(v: int) | NaN | PosInfinity | NegInfinity

  datatype Value =
    | Undefined
    | Null
    | Bool(b: bool)
    | Num(n: JsNumber)
    | Str(s: string)
    | Arr(items: seq<Value>)
    | Obj(fields: map<string, Value>)

  /** JavaScript truthiness: `undefined`, `null`, `false`, `0`, `NaN` and `''` are falsy. */
  predicate Truthy(v: Value) {
    match v
    case Undefined => false
    case Null => false
    case Bool(b) => b
    case Num(n) => n != Finite(0) && n != NaN
    case Str(s) => s != ""
    case Arr(_) => true
    case Obj(_) => true
  }

  /** The values `??` replaces. */
  predicate Nullish(v: Value) {
    v.Undefined? || v.Null?
  }

  /** Property read `v[key]` of an own field on a non-nullish value; a missing property reads as
      `undefined`. Properties inherited from the prototypes of primitive values are not modelled. */
  function Get(v: Value, key: string): (r: Value)
    ensures !v.Obj? ==> r == Undefined
    ensures v.Obj? && key !in v.fields ==> r == Undefined
  {
    if v.Obj? && key in v.fields then v.fields[key] else Undefined
  }

  function DigitChar(d: nat): (c: char)
    requires d < 10
    ensures '0' <= c <= '9'
  {
    ('0' as int + d) as char
  }

  /** Decimal digits of a natural number, most significant first. */
  function NatToString(n: nat): (r: string)
    ensures |r| >= 1
    ensures forall i :: 0 <= i < |r| ==> '0' <= r[i] <= '9'
  {
    if n < 10 then [DigitChar(n)] else NatToString(n / 10) + [DigitChar(n % 10)]
  }

  /** The number a string of decimal digits spells, most significant first. */
  function DigitsValue(s: string): int {
    if |s| == 0 then 0 else DigitsValue(s[..|s| - 1]) * 10 + (s[|s| - 1] as int - '0' as int)
  }

  /** Reading the digits back gives the number. */
  lemma {:induction false} DigitsValueOf(n: nat)
    ensures DigitsValue(NatToString(n)) == n
  {
    if n >= 10 {
      var s := NatToString(n);
      assert s[..|s| - 1] == NatToString(n / 10);
      DigitsValueOf(n / 10);
    }
  }

  /** Distinct numbers have distinct decimal forms, so index keys never collide. */
  lemma NatToStringInjective()
    ensures forall m: nat, n: nat :: NatToString(m) == NatToString(n) ==> m == n
  {
    forall m: nat, n: nat | NatToString(m) == NatToString(n)
      ensures m == n
    {
      DigitsValueOf(m);
      DigitsValueOf(n);
    }
  }

  function NumberToString(n: JsNumber): string {
    match n
    case Finite(v) => if v < 0 then "-" + NatToString(-v) else NatToString(v)
    case NaN => "NaN"
    case PosInfinity => "Infinity"
    case NegInfinity => "-Infinity"
  }

  /**
   * `String(v)`. An array converts as the comma-join of its elements, with
   * `null` and `undefined` elements converting to the empty string. Every object
   * converts as `"[object Object]"`; the `TypeError` JavaScript raises for an
   * object with its own `toString` key is not modelled.
   */
  function ToString(v: Value): string {
    match v
    case Undefined => "undefined"
    case Null => "null"
    case Bool(b) => if b then "true" else "false"
    case Num(n) => NumberToString(n)
    case Str(s) => s
    case Arr(items) =>
      Text.Join(",", seq(|items|, i requires 0 <= i < |items| =>
        if Nullish(items[i]) then "" else ToString(items[i])))
    case Obj(_) => "[object Object]"
  }

  /** `s.filter(Boolean)`. */
  function KeepTruthy(s: seq<Value>): (r: seq<Value>)
    ensures |r| <= |s|
    ensures forall i :: 0 <= i < |r| ==> Truthy(r[i])
  {
    if |s| == 0 then []
    else KeepTruthy(s[..|s| - 1]) + (if Truthy(s[|s| - 1]) then [s[|s| - 1]] else [])
  }

  /** The filter keeps exactly the truthy elements. */
  lemma {:induction false} KeepTruthyMember(s: seq<Value>, x: Value)
    ensures x in KeepTruthy(s) <==> x in s && Truthy(x)
  {
    if |s| > 0 {
      var pre := s[..|s| - 1];
      assert s == pre + [s[|s| - 1]];
      KeepTruthyMember(pre, x);
    }
  }
}
