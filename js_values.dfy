/**
 * The few JavaScript values and built-ins the two components rely on:
 * `null` and `undefined` as two distinct kinds of absence, the decimal
 * rendering of an integral number (`Number.prototype.toString`) and the
 * global `parseInt`, whose failure value is `NaN`.
 */
module JsValues {

  /** A database column that may hold `null`. */
  datatype Nullable<+T> = Null | NonNull(value: T)

  /** An optional object property that may be `undefined`. */
  datatype Optional<+T> = Undefined | Defined(value: T)

  /** What `parseInt` returns: an integer or `NaN`. */
  datatype ParsedNumber = NaN | Num(value: int)

  predicate IsDigit(c: char) {
    '0' <= c <= '9'
  }

  predicate AllDigits(s: string) {
    forall i :: 0 <= i < |s| ==> IsDigit(s[i])
  }

  function DigitValue(c: char): (d: nat)
    requires IsDigit(c)
    ensures d < 10
  {
    c as int - '0' as int
  }

  function DigitChar(d: nat): (c: char)
    requires d < 10
    ensures IsDigit(c) && DigitValue(c) == d
  {
    ('0' as int + d) as char
  }

  /** Decimal digits of a natural number, most significant first, without leading zeros. */
  function NatToDecimal(n: nat): (s: string)
    ensures |s| > 0 && AllDigits(s)
    ensures |s| > 1 ==> s[0] != '0'
    decreases n
  {
    if n < 10 then [DigitChar(n)] else NatToDecimal(n / 10) + [DigitChar(n % 10)]
  }

  /** `n.toString()` for an integral number `n`. */
  function IntToString(n: int): (s: string)
    ensures n >= 0 ==> AllDigits(s)
    ensures n < 0 ==> |s| > 1 && s[0] == '-' && AllDigits(s[1..])
  {
    if n < 0 then "-" + NatToDecimal(-n) else NatToDecimal(n)
  }

  /** The longest prefix of `s` made of decimal digits. */
  function LeadingDigits(s: string): (d: string)
    ensures d <= s && AllDigits(d)
    ensures |d| < |s| ==> !IsDigit(s[|d|])
  {
    if s != [] && IsDigit(s[0]) then [s[0]] + LeadingDigits(s[1..]) else []
  }

  /** The value of a string of decimal digits. */
  function DecimalValue(d: string): nat
    requires AllDigits(d)
  {
    if d == [] then 0 else 10 * DecimalValue(d[..|d| - 1]) + DigitValue(d[|d| - 1])
  }

  /** The text after an optional leading sign. */
  function Unsigned(s: string): string {
    if |s| > 0 && (s[0] == '-' || s[0] == '+') then s[1..] else s
  }

  /**
   * `parseInt(s)` with the default radix on a string without leading white
   * space or `0x` prefix: an optional sign, then as many decimal digits as
   * there are; `NaN` when no digit follows the sign.
   */
  function ParseInt(s: string): (r: ParsedNumber)
    ensures r.NaN? <==> (Unsigned(s) == [] || !IsDigit(Unsigned(s)[0]))
    ensures r.Num? && |s| > 0 && s[0] == '-' ==> r.value <= 0
    ensures r.Num? && !(|s| > 0 && s[0] == '-') ==> r.value >= 0
  {
    var digits := LeadingDigits(Unsigned(s));
    if digits == [] then NaN
    else if |s| > 0 && s[0] == '-' then Num(0 - DecimalValue(digits) as int)
    else Num(DecimalValue(digits))
  }

  lemma {:induction false} LeadingDigitsOfDigits(s: string)
    requires AllDigits(s)
    ensures LeadingDigits(s) == s
  {
    if s != [] {
      LeadingDigitsOfDigits(s[1..]);
      assert [s[0]] + s[1..] == s;
    }
  }

  lemma {:induction false} DecimalValueOfNatToDecimal(n: nat)
    ensures DecimalValue(NatToDecimal(n)) == n
    decreases n
  {
    if n >= 10 {
      var s := NatToDecimal(n);
      assert s[..|s| - 1] == NatToDecimal(n / 10);
      DecimalValueOfNatToDecimal(n / 10);
    }
  }

  /** `parseInt(n.toString())` gives back `n` for every integer `n`. */
  lemma ParseIntOfIntToString(n: int)
    ensures ParseInt(IntToString(n)) == Num(n)
  {
    var m: nat := if n < 0 then -n else n;
    var digits := NatToDecimal(m);
    assert Unsigned(IntToString(n)) == digits by {
      if n < 0 {
        assert IntToString(n)[1..] == digits;
      }
    }
    LeadingDigitsOfDigits(digits);
    DecimalValueOfNatToDecimal(m);
  }
}
