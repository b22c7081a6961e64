/**
 * The JavaScript values that flow through the integration: document fields,
 * configuration entries and change-feed sequence markers. Only the shapes the
 * pipeline distinguishes are kept: `undefined`, `null`, strings, integral
 * numbers and booleans.
 */
module JsValues {

  datatype Value = Undefined | Null | Str(s: string) | Num(n: int) | Bool(b: bool)

  /** JavaScript truthiness: `undefined`, `null`, `''`, `0` and `false` are falsy. */
  predicate Truthy(v: Value) {
    match v
    case Undefined => false
    case Null => false
    case Str(s) => s != ""
    case Num(n) => n != 0
    case Bool(b) => b
  }

  /** The test `v !== undefined && v !== null && v !== ''`. */
  predicate Present(v: Value) {
    v != Undefined && v != Null && v != Str("")
  }

  /** The expression `a || b`: the first operand when it is truthy, else the second. */
  function Or(a: Value, b: Value): (r: Value)
    ensures Truthy(a) ==> r == a
    ensures !Truthy(a) ==> r == b
  {
    if Truthy(a) then a else b
  }

  /** A present value that is not truthy: exactly the number `0` and the boolean `false`. */
  lemma PresentButFalsy(v: Value)
    ensures Present(v) && !Truthy(v) <==> v == Num(0) || v == Bool(false)
  {
  }

  // ---------------------------------------------------------------------
  // Decimal rendering of integers, as `String(n)` produces for integral
  // numbers.
  // ---------------------------------------------------------------------

  predicate IsDigit(c: char) {
    '0' <= c <= '9'
  }

  predicate AllDigits(s: string) {
    forall i :: 0 <= i < |s| ==> IsDigit(s[i])
  }

  function DigitChar(d: nat): (c: char)
    requires d < 10
    ensures IsDigit(c)
    ensures c as int - '0' as int == d
  {
    ('0' as int + d) as char
  }

  function DigitValue(c: char): (d: nat)
    requires IsDigit(c)
    ensures d < 10
    ensures DigitChar(d) == c
  {
    c as int - '0' as int
  }

  /** The shortest decimal numeral of `n`. */
  function NatToDecimal(n: nat): (r: string)
    ensures |r| >= 1
    ensures AllDigits(r)
    ensures |r| == 1 || r[0] != '0'
    decreases n
  {
    if n < 10 then [DigitChar(n)] else NatToDecimal(n / 10) + [DigitChar(n % 10)]
  }

  /** The number a numeral denotes: the reading inverse of `NatToDecimal`. */
  function DecimalValue(s: string): nat
    requires AllDigits(s)
    decreases |s|
  {
    if |s| == 0 then 0 else DecimalValue(s[..|s| - 1]) * 10 + DigitValue(s[|s| - 1])
  }

  /** Reading back a rendered numeral gives the number it was rendered from. */
  lemma {:induction false} DecimalRoundTrip(n: nat)
    ensures DecimalValue(NatToDecimal(n)) == n
    decreases n
  {
    if n >= 10 {
      var s := NatToDecimal(n);
      DecimalRoundTrip(n / 10);
      assert s[..|s| - 1] == NatToDecimal(n / 10);
      assert DigitValue(s[|s| - 1]) == n % 10;
    }
  }

  /** `String(n)` for an integral number: an optional minus sign, then the numeral. */
  function IntToDecimal(n: int): (r: string)
    ensures |r| >= 1
    ensures n >= 0 <==> IsDigit(r[0])
    ensures n < 0 <==> r[0] == '-'
  {
    if n < 0 then "-" + NatToDecimal(-n) else NatToDecimal(n)
  }

  /** Different naturals render as different numerals. */
  lemma NatToDecimalInjective(a: nat, b: nat)
    requires NatToDecimal(a) == NatToDecimal(b)
    ensures a == b
  {
    DecimalRoundTrip(a);
    DecimalRoundTrip(b);
  }

  /** Different integers render as different strings. */
  lemma IntToDecimalInjective(m: int, n: int)
    requires IntToDecimal(m) == IntToDecimal(n)
    ensures m == n
  {
    var r := IntToDecimal(m);
    if m < 0 {
      assert n < 0;
      assert r[1..] == NatToDecimal(-m) && r[1..] == NatToDecimal(-n);
      NatToDecimalInjective(-m, -n);
    } else {
      assert n >= 0;
      NatToDecimalInjective(m, n);
    }
  }

  /** `String(v)`: the text JavaScript gives a value when it is coerced to a string. */
  function ToJsString(v: Value): (r: string)
    ensures v.Str? ==> r == v.s
    ensures v.Num? ==> r == IntToDecimal(v.n)
    ensures v.Bool? ==> r == (if v.b then "true" else "false")
  {
    match v
    case Undefined => "undefined"
    case Null => "null"
    case Str(s) => s
    case Num(n) => IntToDecimal(n)
    case Bool(b) => if b then "true" else "false"
  }

  /** A present value never renders as the empty string: emitted values are never blank. */
  lemma PresentRendersNonEmpty(v: Value)
    requires Present(v)
    ensures ToJsString(v) != ""
  {
  }
}
