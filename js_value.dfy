/**
 * JavaScript values as the AI binding, `JSON.parse` and request bodies
 * deliver them, with the three operations the service applies to them:
 * truthiness, optional property reads (`v?.key`) and `String(v)`.
 */
module JsValue {
  import opened JsString

  /** A JavaScript value; numbers are restricted to integers. */
  datatype JsValue =
    | Undefined
    | Null
    | Bool(b: bool)
    | Num(n: int)
    | Str(s: string)
    | Arr(items: seq<JsValue>)
    | Obj(fields: map<string, JsValue>)

  /** `v == null`: reading a property of such a value throws a TypeError. */
  predicate IsNullish(v: JsValue) {
    v.Undefined? || v.Null?
  }

  /** JavaScript truthiness: what `if (v)`, `v || w` and `!v` test. */
  predicate Truthy(v: JsValue) {
    match v
    case Undefined => false
    case Null => false
    case Bool(b) => b
    case Num(n) => n != 0
    case Str(s) => s != []
    case Arr(_) => true
    case Obj(_) => true
  }

  /** `v?.key`: the own property `key` of an object, otherwise `undefined`. */
  function Get(v: JsValue, key: string): JsValue {
    if v.Obj? && key in v.fields then v.fields[key] else Undefined
  }

  /** `v || w` */
  function Or(v: JsValue, w: JsValue): JsValue {
    if Truthy(v) then v else w
  }

  function DigitChar(d: nat): (c: char)
    requires d < 10
    ensures '0' <= c <= '9'
  {
    ('0' as int + d) as char
  }

  /** The decimal notation of a natural number, without leading zeros. */
  function Decimal(n: nat): (r: string)
    ensures |r| >= 1
    ensures forall i :: 0 <= i < |r| ==> '0' <= r[i] <= '9'
    ensures n < 10 <==> |r| == 1
  {
    if n < 10 then [DigitChar(n)] else Decimal(n / 10) + [DigitChar(n % 10)]
  }

  /** Array elements joined with commas, as `Array.prototype.join` does. */
  function JoinWithCommas(parts: seq<string>): string {
    if parts == [] then ""
    else if |parts| == 1 then parts[0]
    else parts[0] + "," + JoinWithCommas(parts[1..])
  }

  /** `String(v)` */
  function ToJsString(v: JsValue): string
    decreases v
  {
    match v
    case Undefined => "undefined"
    case Null => "null"
    case Bool(b) => if b then "true" else "false"
    case Num(n) => if n < 0 then "-" + Decimal(-n) else Decimal(n)
    case Str(s) => s
    case Arr(items) =>
      // `join` writes null and undefined elements as empty strings
      JoinWithCommas(seq(|items|, i requires 0 <= i < |items| =>
        if IsNullish(items[i]) then "" else ToJsString(items[i])))
    case Obj(_) => "[object Object]"
  }

  /** The string form of a number is `"1"` exactly for the number 1. */
  lemma {:induction false} NumberStringIsOne(n: int)
    ensures ToJsString(Num(n)) == "1" <==> n == 1
  {
    if n < 0 {
      assert ToJsString(Num(n))[0] == '-';
    } else if n >= 10 {
      assert |Decimal(n)| > 1;
    } else {
      assert ToJsString(Num(n)) == [DigitChar(n)];
    }
  }

  /** The string form of a number has no white space at either end. */
  lemma NumberStringIsTrimmed(n: int)
    ensures IsTrimmed(ToJsString(Num(n)))
  {
    var r := ToJsString(Num(n));
    var d := Decimal(if n < 0 then -n else n);
    assert !IsWhiteSpace(d[|d| - 1]);
    assert r[|r| - 1] == d[|d| - 1];
  }
}
