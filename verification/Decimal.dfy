/**
 Decimal texts: %d and %lld, the wire timestamp reader (src/atom.c:616-630), and the
 number layout of section 6.1.6.1.20 of ECMA-262 (src/atom.c:819-875).

 A finite double is represented by the shortest decimal that reads back as it: a sign,
 its significant digits and the position n of the decimal point after the first digit's
 left edge, so the value is 0.d1d2...dk times 10^n.
 */
module Decimal {
  import opened Basics
  import opened Digits

  function NatText(v: nat): (s: string)
    ensures s != "" && IsNumeral(10, s)
    ensures v > 0 ==> s[0] != '0'
  {
    if v < 10 then [DigitChar(v)] else NatText(v / 10) + [DigitChar(v % 10)]
  }

  function IntText(v: int): string {
    if v < 0 then "-" + NatText(-v) else NatText(v)
  }

  lemma {:induction false} NatTextValue(v: nat)
    ensures NumeralValue(10, NatText(v)) == v
    ensures forall k: nat :: |NatText(v)| <= k <==> v < Pow(10, k) && k > 0
  {
    if v < 10 {
      NumeralAppend(10, "", DigitChar(v));
      assert "" + [DigitChar(v)] == [DigitChar(v)];
      forall k: nat ensures 1 <= k <==> v < Pow(10, k) && k > 0 {
        if k > 0 { PowIncreases(10, 1, k); }
      }
    } else {
      NatTextValue(v / 10);
      NumeralAppend(10, NatText(v / 10), DigitChar(v % 10));
      forall k: nat ensures |NatText(v)| <= k <==> v < Pow(10, k) && k > 0 {
        if k > 0 {
          var p := Pow(10, k - 1);
          assert v < 10 * p <==> v / 10 < p;
          assert |NatText(v / 10)| <= k - 1 <==> v / 10 < p && k - 1 > 0;
          assert k == 1 ==> p == 1;
        }
      }
    }
  }

  /** %d texts denote distinct numbers. */
  lemma {:induction false} IntTextInjective(v: int, w: int)
    requires IntText(v) == IntText(w)
    ensures v == w
  {
    NatTextValue(if v < 0 then -v else v);
    NatTextValue(if w < 0 then -w else w);
    if v < 0 && w < 0 {
      assert IntText(v)[1..] == NatText(-v) && IntText(w)[1..] == NatText(-w);
    }
  }

  const MILLIS_DIGITS: nat := 18

  predicate IsMillis(text: string) {
    1 <= |text| <= MILLIS_DIGITS && IsNumeral(10, text)
  }

  /** knishio_cjson_millis: one to eighteen decimal digits. */
  function Millis(text: string): Option<int> {
    if IsMillis(text) then Some(NumeralValue(10, text)) else None
  }

  method ReadMillis(text: string) returns (ms: Option<int>)
    ensures ms == Millis(text)
  {
    if |text| == 0 || |text| > 18 {
      return None;
    }
    var value := 0;
    for i := 0 to |text|
      invariant IsNumeral(10, text[..i]) && value == NumeralValue(10, text[..i])
    {
      if text[i] < '0' || text[i] > '9' {
        assert DigitOf(text[i]) >= 10;
        return None;
      }
      NumeralAppend(10, text[..i], text[i]);
      assert text[..i + 1] == text[..i] + [text[i]];
      value := value * 10 + (text[i] - '0') as int;
    }
    assert text[..|text|] == text;
    return Some(value);
  }

  predicate FitsMillis(ms: int) {
    0 <= ms < Pow(10, MILLIS_DIGITS)
  }

  /** A printed timestamp reads back exactly when it is not negative and has at most 18 digits. */
  lemma {:induction false} MillisRoundTrip(ms: int)
    ensures Millis(IntText(ms)) == if FitsMillis(ms) then Some(ms) else None
  {
    if ms >= 0 {
      NatTextValue(ms);
    } else {
      assert DigitOf(IntText(ms)[0]) >= 10;
    }
  }

  datatype Number = Zero | Number(negative: bool, digits: string, n: int)

  function Zeros(count: nat): (s: string)
    ensures |s| == count
  {
    seq(count, _ => '0')
  }

  lemma {:induction false} TrailingZeros(s: string, count: nat)
    ensures NumeralValue(10, s + Zeros(count)) == NumeralValue(10, s) * Pow(10, count)
  {
    if count == 0 {
      assert s + Zeros(0) == s;
    } else {
      TrailingZeros(s, count - 1);
      NumeralAppend(10, s + Zeros(count - 1), '0');
      assert s + Zeros(count) == s + Zeros(count - 1) + ['0'];
    }
  }

  lemma {:induction false} LeadingZerosValue(count: nat, s: string)
    ensures NumeralValue(10, Zeros(count) + s) == NumeralValue(10, s)
  {
    if s == "" {
      TrailingZeros("", count);
      assert Zeros(count) + s == "" + Zeros(count);
      assert DigitsOf("") == [];
    } else {
      var front, last := s[..|s| - 1], s[|s| - 1];
      LeadingZerosValue(count, front);
      NumeralAppend(10, Zeros(count) + front, last);
      NumeralAppend(10, front, last);
      assert Zeros(count) + s == Zeros(count) + front + [last] && s == front + [last];
    }
  }

  /** Digits without trailing zeros, at least one digit kept. */
  function Stripped(digits: string): (s: string)
    ensures |s| <= |digits| && s == digits[..|s|]
    ensures digits == s + Zeros(|digits| - |s|)
    ensures digits != "" ==> s != ""
  {
    if |digits| > 1 && digits[|digits| - 1] == '0' then Stripped(digits[..|digits| - 1]) else digits
  }

  function NumberOfInt(v: int): Number {
    if v == 0 then Zero
    else
      var text := NatText(if v < 0 then -v else v);
      Number(v < 0, Stripped(text), |text|)
  }

  /** The integer a number denotes, if it denotes one. */
  function IntegerOf(num: Number): Option<int> {
    if num.Zero? then Some(0)
    else if num.n < |num.digits| then None
    else
      var magnitude := NumeralValue(10, num.digits) * Pow(10, num.n - |num.digits|);
      Some(if num.negative then -magnitude else magnitude)
  }

  /** A printed integer reads back as itself. */
  lemma {:induction false} NumberOfIntRoundTrip(v: int)
    ensures IntegerOf(NumberOfInt(v)) == Some(v)
  {
    if v != 0 {
      var m := if v < 0 then -v else v;
      NatTextValue(m);
      var text := NatText(m);
      TrailingZeros(Stripped(text), |text| - |Stripped(text)|);
    }
  }

  /** The text of a number: the four layouts, then the exponent form. */
  function Layout(num: Number): string {
    if num.Zero? then "0"
    else (if num.negative then "-" else "") + Unsigned(num.digits, num.n)
  }

  function Unsigned(digits: string, n: int): string {
    var k := |digits|;
    if 0 < n <= 21 then
      if k <= n then digits + Zeros(n - k) else digits[..n] + "." + digits[n..]
    else if -6 < n <= 0 then "0." + Zeros(-n) + digits
    else
      digits[..if k == 0 then 0 else 1] + (if k > 1 then "." + digits[1..] else "") + ExponentText(n - 1)
  }

  function ExponentText(e: int): string {
    if e < 0 then "e-" + NatText(-e) else "e+" + NatText(e)
  }

  /** Position of the first c in s, |s| when there is none. */
  function IndexOf(c: char, s: string): (i: nat)
    ensures i <= |s| && c !in s[..i] && (i < |s| ==> s[i] == c)
  {
    if s == "" || s[0] == c then 0
    else
      var i := IndexOf(c, s[1..]);
      assert s[..i + 1] == [s[0]] + s[1..][..i];
      i + 1
  }

  /** A decimal read from text: coefficient times 10^exponent. */
  datatype Scientific = Scientific(negative: bool, coefficient: int, exponent: int)

  function ParseExponent(s: string): int {
    if s == "" then 0
    else if s[0] == '-' then -NumeralValue(10, s[1..])
    else if s[0] == '+' then NumeralValue(10, s[1..])
    else NumeralValue(10, s)
  }

  /** Reads digits[.digits]. */
  function ParseMantissa(mantissa: string): Scientific {
    var point := IndexOf('.', mantissa);
    var fraction := if point < |mantissa| then mantissa[point + 1..] else "";
    Scientific(false, NumeralValue(10, mantissa[..point] + fraction), -|fraction|)
  }

  /** Reads digits[.digits][e(+|-)digits]. */
  function ParseUnsigned(body: string): Scientific {
    var e := IndexOf('e', body);
    var m := ParseMantissa(body[..e]);
    if e < |body| then m.(exponent := m.exponent + ParseExponent(body[e + 1..])) else m
  }

  /** Reads [-]digits[.digits][e(+|-)digits]. */
  function ParseNumber(text: string): Scientific {
    if text != "" && text[0] == '-' then ParseUnsigned(text[1..]).(negative := true) else ParseUnsigned(text)
  }

  /** The same decimal value, compared at the smaller exponent. */
  ghost predicate SameValue(c1: int, e1: int, c2: int, e2: int) {
    if e1 <= e2 then c1 == c2 * Pow(10, e2 - e1) else c1 * Pow(10, e1 - e2) == c2
  }

  predicate IsSignificant(digits: string) {
    digits != "" && IsNumeral(10, digits) && digits[0] != '0'
  }

  lemma {:induction false} SplitAt(c: char, a: string, b: string)
    requires c !in a
    ensures IndexOf(c, a + [c] + b) == |a| && (a + [c] + b)[..|a|] == a && (a + [c] + b)[|a| + 1..] == b
    ensures IndexOf(c, a) == |a|
  {
    var s := a + [c] + b;
    if a != "" {
      SplitAt(c, a[1..], b);
      assert s[1..] == a[1..] + [c] + b;
    }
  }

  lemma {:induction false} NumeralFree(s: string)
    requires IsNumeral(10, s)
    ensures 'e' !in s && '.' !in s && (s != "" ==> s[0] != '-')
  {
  }

  lemma {:induction false} ParseWhole(whole: string)
    requires IsNumeral(10, whole)
    ensures ParseMantissa(whole) == Scientific(false, NumeralValue(10, whole), 0)
    ensures 'e' !in whole
  {
    NumeralFree(whole);
    SplitAt('.', whole, "");
    assert whole + "" == whole;
  }

  lemma {:induction false} ParseDotted(whole: string, fraction: string)
    requires IsNumeral(10, whole) && IsNumeral(10, fraction)
    ensures ParseMantissa(whole + "." + fraction)
         == Scientific(false, NumeralValue(10, whole + fraction), -|fraction|)
    ensures 'e' !in whole + "." + fraction
  {
    NumeralFree(whole);
    NumeralFree(fraction);
    SplitAt('.', whole, fraction);
  }

  lemma {:induction false} ParsePlain(mantissa: string)
    requires 'e' !in mantissa
    ensures ParseUnsigned(mantissa) == ParseMantissa(mantissa)
  {
    SplitAt('e', mantissa, "");
    assert mantissa[..|mantissa|] == mantissa;
  }

  lemma {:induction false} ParseScaled(mantissa: string, e: int)
    requires 'e' !in mantissa
    ensures ParseUnsigned(mantissa + ExponentText(e))
         == ParseMantissa(mantissa).(exponent := ParseMantissa(mantissa).exponent + e)
  {
    hide ExponentText, ParseExponent, ParseMantissa, IndexOf;
    var tail := ExponentTail(e);
    assert mantissa + ExponentText(e) == mantissa + ['e'] + tail;
    SplitAt('e', mantissa, tail);
  }

  lemma {:induction false} ExponentTail(e: int) returns (tail: string)
    ensures ExponentText(e) == ['e'] + tail && ParseExponent(tail) == e
  {
    var magnitude := if e < 0 then -e else e;
    NatTextValue(magnitude);
    tail := (if e < 0 then "-" else "+") + NatText(magnitude);
    assert tail[1..] == NatText(magnitude);
  }

  lemma {:induction false} IntegerLayout(digits: string, n: int)
    requires IsSignificant(digits) && |digits| <= n <= 21
    ensures ParseUnsigned(Unsigned(digits, n)) == Scientific(false, NumeralValue(10, digits) * Pow(10, n - |digits|), 0)
  {
    TrailingZeros(digits, n - |digits|);
    ParseWhole(digits + Zeros(n - |digits|));
    ParsePlain(digits + Zeros(n - |digits|));
  }

  lemma {:induction false} PointLayout(digits: string, n: int)
    requires IsSignificant(digits) && 0 < n < |digits| && n <= 21
    ensures ParseUnsigned(Unsigned(digits, n)) == Scientific(false, NumeralValue(10, digits), n - |digits|)
  {
    var whole, fraction := digits[..n], digits[n..];
    ParseDotted(whole, fraction);
    ParsePlain(whole + "." + fraction);
    assert whole + fraction == digits;
  }

  lemma {:induction false} SmallText(digits: string, n: int)
    requires -6 < n <= 0
    ensures Unsigned(digits, n) == Zeros(1) + "." + (Zeros(-n) + digits)
  {
    assert Zeros(1) == "0";
  }

  lemma {:induction false} SmallLayout(digits: string, n: int)
    requires IsSignificant(digits) && -6 < n <= 0
    ensures ParseUnsigned(Unsigned(digits, n)) == Scientific(false, NumeralValue(10, digits), n - |digits|)
  {
    var fraction := Zeros(-n) + digits;
    SmallText(digits, n);
    ParseDotted(Zeros(1), fraction);
    ParsePlain(Zeros(1) + "." + fraction);
    assert Zeros(1) + fraction == Zeros(1 - n) + digits;
    LeadingZerosValue(1 - n, digits);
  }

  lemma {:induction false} ExponentForm(digits: string, n: int)
    requires digits != "" && !(-6 < n <= 21)
    ensures Unsigned(digits, n)
         == (if |digits| > 1 then digits[..1] + "." + digits[1..] else digits) + ExponentText(n - 1)
  {
    assert |digits| == 1 ==> digits[..1] + "" == digits;
  }

  lemma {:induction false} LeadingDigit(digits: string)
    requires IsNumeral(10, digits) && |digits| > 1
    ensures ParseMantissa(digits[..1] + "." + digits[1..])
         == Scientific(false, NumeralValue(10, digits), 1 - |digits|)
    ensures 'e' !in digits[..1] + "." + digits[1..]
  {
    ParseDotted(digits[..1], digits[1..]);
    assert digits[..1] + digits[1..] == digits;
  }

  lemma {:induction false} ExponentLayout(digits: string, n: int)
    requires IsSignificant(digits) && !(-6 < n <= 21)
    ensures ParseUnsigned(Unsigned(digits, n)) == Scientific(false, NumeralValue(10, digits), n - |digits|)
  {
    ExponentForm(digits, n);
    var mantissa := if |digits| > 1 then digits[..1] + "." + digits[1..] else digits;
    assert 'e' !in mantissa && ParseMantissa(mantissa) == Scientific(false, NumeralValue(10, digits), 1 - |digits|) by {
      if |digits| > 1 {
        LeadingDigit(digits);
      } else {
        ParseWhole(digits);
      }
    }
    ParseScaled(mantissa, n - 1);
  }

  lemma {:induction false} SameScaled(c: int, k: nat)
    ensures SameValue(c * Pow(10, k), 0, c, k)
  {
  }

  lemma {:induction false} SameItself(c: int, e: int)
    ensures SameValue(c, e, c, e)
  {
    assert Pow(10, 0) == 1;
  }

  /** Parsing the printed text gives the number back, in all layouts and for every exponent. */
  lemma {:induction false} LayoutRoundTrip(num: Number)
    requires num.Number? && IsSignificant(num.digits)
    ensures var parsed := ParseNumber(Layout(num));
            parsed.negative == num.negative &&
            SameValue(parsed.coefficient, parsed.exponent,
                      NumeralValue(10, num.digits), num.n - |num.digits|)
  {
    var digits, n, v := num.digits, num.n, NumeralValue(10, num.digits);
    if |digits| <= n <= 21 {
      IntegerLayout(digits, n);
      SameScaled(v, n - |digits|);
    } else {
      if 0 < n <= 21 {
        PointLayout(digits, n);
      } else if -6 < n <= 0 {
        SmallLayout(digits, n);
      } else {
        ExponentLayout(digits, n);
      }
      SameItself(v, n - |digits|);
    }
    SignedLayout(num);
  }

  lemma {:induction false} SignedLayout(num: Number)
    requires num.Number? && IsSignificant(num.digits)
    ensures ParseNumber(Layout(num)) == ParseUnsigned(Unsigned(num.digits, num.n)).(negative := num.negative)
  {
    var body := Unsigned(num.digits, num.n);
    UnsignedStart(num.digits, num.n);
    UnsignedParses(body);
    assert "" + body == body && ("-" + body)[1..] == body;
  }

  lemma {:induction false} UnsignedParses(body: string)
    ensures !ParseUnsigned(body).negative
  {
  }

  lemma {:induction false} UnsignedStart(digits: string, n: int)
    requires IsSignificant(digits)
    ensures Unsigned(digits, n) != "" && Unsigned(digits, n)[0] != '-'
  {
    NumeralFree(digits);
  }

  /** The exponent form is taken exactly below 1e-6 and from 1e21 on; a point is in the text of no whole number below. */
  lemma {:induction false} ExponentShown(num: Number)
    requires num.Number? && IsSignificant(num.digits)
    ensures 'e' in Layout(num) <==> num.n <= -6 || num.n > 21
    ensures |num.digits| <= num.n <= 21 ==> '.' !in Layout(num)
  {
    NumeralFree(num.digits);
    var digits, n := num.digits, num.n;
    if !(-6 < n <= 21) {
      ExponentForm(digits, n);
      var tail := ExponentTail(n - 1);
      assert ExponentText(n - 1)[0] == 'e' && 'e' in ExponentText(n - 1);
    }
  }

  /** A timestamp that was read can be written again. */
  lemma {:induction false} MillisFit(text: string)
    ensures Millis(text).Some? ==> FitsMillis(Millis(text).value)
  {
    if Millis(text).Some? {
      NumeralRange(10, text);
      PowIncreases(10, |text|, 18);
    }
  }
}
