/**
  The two JavaScript numeric coercions the extension applies to a line
  number: unary `+` on the text between the first two colons, and `~~`
  (ECMAScript ToInt32) before the position is built. Only digit strings are
  converted to a value (fractions, signs, whitespace and the `0x`, `0o`,
  `0b` prefixes that JS also reads give NaN), so a JS number is either an
  integer or NaN here.
  The integer is exact: a JS double agrees with it only up to 2^53, above
  which JS rounds, and from about 1.8e308 on JS gives Infinity.
 */
module Numbers {

  datatype Number = Finite(value: int) | NaN

  predicate IsDigit(ch: char) {
    '0' <= ch <= '9'
  }

  predicate AllDigits(s: string) {
    forall i :: 0 <= i < |s| ==> IsDigit(s[i])
  }

  function DigitValue(ch: char): (d: nat)
    requires IsDigit(ch)
    ensures d < 10
  {
    ch as int - '0' as int
  }

  function DigitChar(d: nat): (ch: char)
    requires d < 10
    ensures IsDigit(ch) && DigitValue(ch) == d
  {
    ('0' as int + d) as char
  }

  /** The value of a string of decimal digits, most significant first; "" is 0. */
  function DecimalValue(s: string): nat
    requires AllDigits(s)
  {
    if |s| == 0 then 0
    else DecimalValue(s[..|s| - 1]) * 10 + DigitValue(s[|s| - 1])
  }

  /** The shortest decimal spelling of `n`. */
  function DecimalString(n: nat): (s: string)
    ensures |s| >= 1 && AllDigits(s)
  {
    if n < 10 then [DigitChar(n)]
    else DecimalString(n / 10) + [DigitChar(n % 10)]
  }

  /** Unary `+` on a string, restricted to decimal digits: "" gives 0, any
      string with a non-digit gives NaN. */
  function ToNumber(s: string): (r: Number)
    ensures AllDigits(s) <==> r.Finite?
    ensures r.Finite? ==> r.value >= 0
    ensures s == "" ==> r == Finite(0)
  {
    if AllDigits(s) then Finite(DecimalValue(s)) else NaN
  }

  /** Reading back a decimal spelling gives the number spelled. */
  lemma {:induction false} DecimalRoundTrip(n: nat)
    ensures ToNumber(DecimalString(n)) == Finite(n)
  {
    var s := DecimalString(n);
    if n < 10 {
      assert DecimalValue(s) == DecimalValue(s[..0]) * 10 + DigitValue(s[0]);
    } else {
      DecimalRoundTrip(n / 10);
      var init := DecimalString(n / 10);
      assert s == init + [DigitChar(n % 10)];
      assert s[..|s| - 1] == init;
      assert DecimalValue(init) == n / 10;
      assert DecimalValue(s) == DecimalValue(init) * 10 + DigitValue(DigitChar(n % 10));
    }
  }

  const TwoTo31: int := 0x8000_0000
  const TwoTo32: int := 0x1_0000_0000

  /** ECMAScript ToInt32, which `~~x` computes: NaN becomes 0 and an integer
      is wrapped into the signed 32-bit range. */
  function ToInt32(x: Number): (r: int)
    ensures -TwoTo31 <= r < TwoTo31
    ensures x.NaN? ==> r == 0
    ensures x.Finite? ==> (x.value - r) % TwoTo32 == 0
    ensures x.Finite? && -TwoTo31 <= x.value < TwoTo31 ==> r == x.value
  {
    match x
    case NaN => 0
    case Finite(v) =>
      var m := v % TwoTo32;
      if m >= TwoTo31 then m - TwoTo32 else m
  }
}
