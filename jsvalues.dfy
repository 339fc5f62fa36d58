/**
 * The JavaScript primitive values that widget attributes and widget values hold,
 * with the two operations of the language the widgets rely on: truthiness
 * (`if (x)`, `x || y`) and conversion to a string (`'...' + x`).
 */
module JsValues {

  /** A JavaScript primitive. Numbers are restricted to integers, read as exact; JavaScript numbers are exact only up to 2^53. */
  datatype JsValue = Undefined | Null | Bool(b: bool) | Num(n: int) | Str(s: string)

  /** JavaScript truthiness: `undefined`, `null`, `false`, `0` and `''` are falsy. */
  predicate Truthy(v: JsValue) {
    match v
    case Undefined => false
    case Null => false
    case Bool(b) => b
    case Num(n) => n != 0
    case Str(s) => s != ""
  }

  predicate IsDigit(c: char) {
    '0' <= c <= '9'
  }

  function DigitChar(d: nat): (c: char)
    requires d < 10
    ensures IsDigit(c)
  {
    ('0' as int + d) as char
  }

  /** The decimal numeral of a natural number, as `String(n)` writes it for a safe integer (below 2^53). */
  function NatToString(n: nat): (s: string)
    ensures |s| >= 1
    ensures forall i :: 0 <= i < |s| ==> IsDigit(s[i])
    ensures n < 10 <==> |s| == 1
  {
    if n < 10 then [DigitChar(n)] else NatToString(n / 10) + [DigitChar(n % 10)]
  }

  /** Distinct numbers have distinct numerals. */
  lemma {:induction false} NatToStringInjective(n: nat, m: nat)
    requires NatToString(n) == NatToString(m)
    ensures n == m
  {
    if n >= 10 && m >= 10 {
      var sn, sm := NatToString(n), NatToString(m);
      assert sn[..|sn| - 1] == NatToString(n / 10);
      assert sm[..|sm| - 1] == NatToString(m / 10);
      NatToStringInjective(n / 10, m / 10);
      assert DigitChar(n % 10) == sn[|sn| - 1] == DigitChar(m % 10);
    }
  }

  /** `String(v)` for a primitive. */
  function ToString(v: JsValue): (s: string) {
    match v
    case Undefined => "undefined"
    case Null => "null"
    case Bool(b) => if b then "true" else "false"
    case Num(n) => if n < 0 then "-" + NatToString(-n) else NatToString(n)
    case Str(s) => s
  }
}
