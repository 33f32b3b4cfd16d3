/**
 Positional notation. One digit alphabet ('0'-'9', then 'a'-'z') serves base 10, 16
 and 17 texts; digit sequences are most significant first.
 */
module Digits {

  function Pow(b: nat, n: nat): nat {
    if n == 0 then 1 else b * Pow(b, n - 1)
  }

  /** The number a digit sequence denotes. */
  function ValueOf(base: nat, ds: seq<int>): int {
    if ds == [] then 0 else ValueOf(base, ds[..|ds| - 1]) * base + ds[|ds| - 1]
  }

  const NOT_A_DIGIT := 99

  function DigitOf(c: char): (d: nat)
    ensures d <= NOT_A_DIGIT
  {
    if '0' <= c <= '9' then (c - '0') as nat
    else if 'a' <= c <= 'z' then (c - 'a') as nat + 10
    else NOT_A_DIGIT
  }

  function DigitChar(d: nat): (c: char)
    requires d < 36
    ensures DigitOf(c) == d
  {
    if d < 10 then '0' + d as char else 'a' + (d - 10) as char
  }

  /** Every character is a digit of the base. */
  predicate IsNumeral(base: nat, s: string) {
    forall i :: 0 <= i < |s| ==> DigitOf(s[i]) < base
  }

  function DigitsOf(s: string): (ds: seq<int>)
    ensures |ds| == |s|
  {
    seq(|s|, i requires 0 <= i < |s| => DigitOf(s[i]))
  }

  function NumeralValue(base: nat, s: string): int {
    ValueOf(base, DigitsOf(s))
  }

  /** The numeral of v with exactly `width` digits (v reduced modulo base^width). */
  function Numeral(base: nat, width: nat, v: nat): (s: string)
    requires 2 <= base <= 36
    ensures |s| == width && IsNumeral(base, s)
  {
    if width == 0 then "" else Numeral(base, width - 1, v / base) + [DigitChar(v % base)]
  }

  lemma {:induction false} PowAdd(b: nat, m: nat, n: nat)
    ensures Pow(b, m + n) == Pow(b, m) * Pow(b, n)
  {
    if m == 0 {
    } else {
      PowAdd(b, m - 1, n);
      assert b * (Pow(b, m - 1) * Pow(b, n)) == (b * Pow(b, m - 1)) * Pow(b, n);
    }
  }

  lemma {:induction false} PowPositive(b: nat, n: nat)
    requires b > 0
    ensures Pow(b, n) > 0
  {
    if n > 0 {
      PowPositive(b, n - 1);
      assert b * Pow(b, n - 1) > 0;
    }
  }

  lemma {:induction false} PowIncreases(b: nat, m: nat, n: nat)
    requires b > 0 && m <= n
    ensures Pow(b, m) <= Pow(b, n)
  {
    PowAdd(b, m, n - m);
    PowPositive(b, m);
    PowPositive(b, n - m);
    MulAtLeast(Pow(b, m), Pow(b, n - m));
  }

  lemma {:induction false} MulAtLeast(x: int, y: int)
    requires x >= 0 && y >= 1
    ensures x * y >= x
  {
  }

  lemma {:induction false} PowBaseMonotone(a: nat, b: nat, n: nat)
    requires a <= b
    ensures Pow(a, n) <= Pow(b, n)
  {
    if n > 0 {
      PowBaseMonotone(a, b, n - 1);
      MulMonotone(a, b, Pow(a, n - 1), Pow(b, n - 1));
    }
  }

  lemma {:induction false} MulMonotone(a: nat, b: nat, x: nat, y: nat)
    requires a <= b && x <= y
    ensures a * x <= b * y
  {
    assert a * x <= a * y;
    assert a * y <= b * y;
  }

  lemma {:induction false} BoundStep(v: int, base: int, p: int, d: int)
    requires 0 <= v < p && 0 <= d < base
    ensures 0 <= v * base + d < base * p
  {
    assert (v + 1) * base <= p * base;
  }

  lemma {:induction false} DivBound(v: nat, base: nat, p: nat)
    requires base > 0 && v < base * p
    ensures v / base < p
  {
    var q := v / base;
    assert q * base <= v;
    if q >= p {
      MulMonotone(p, q, base, base);
    }
  }

  lemma {:induction false} ValueBound(base: nat, ds: seq<int>)
    requires base > 0
    requires forall i :: 0 <= i < |ds| ==> 0 <= ds[i] < base
    ensures 0 <= ValueOf(base, ds) < Pow(base, |ds|)
  {
    if ds != [] {
      var front := ds[..|ds| - 1];
      ValueBound(base, front);
      BoundStep(ValueOf(base, front), base, Pow(base, |front|), ds[|ds| - 1]);
    }
  }

  lemma {:induction false} NumeralRange(base: nat, s: string)
    requires base > 0 && IsNumeral(base, s)
    ensures 0 <= NumeralValue(base, s) < Pow(base, |s|)
  {
    ValueBound(base, DigitsOf(s));
  }

  lemma {:induction false} ValueConcat(base: nat, a: seq<int>, b: seq<int>)
    ensures ValueOf(base, a + b) == ValueOf(base, a) * Pow(base, |b|) + ValueOf(base, b)
  {
    if b == [] {
      assert a + b == a;
    } else {
      var front := b[..|b| - 1];
      ValueConcat(base, a, front);
      assert (a + b)[..|a + b| - 1] == a + front;
      ConcatStep(base, ValueOf(base, a), Pow(base, |front|), ValueOf(base, front));
    }
  }

  lemma {:induction false} ConcatStep(base: nat, v: int, p: nat, w: int)
    ensures (v * p + w) * base == v * (base * p) + w * base
  {
    assert (v * p) * base == v * (base * p);
  }

  lemma {:induction false} DivModUnique(base: nat, q: int, r: int, v: int)
    requires 0 <= r < base && v == q * base + r
    ensures v / base == q && v % base == r
  {
    var q', r' := v / base, v % base;
    assert (q - q') * base == r' - r;
    if q != q' {
      if q > q' { MulAtLeast(base, q - q'); } else { MulAtLeast(base, q' - q); }
      assert false;
    }
  }

  /** Digit sequences of one length denote distinct numbers. */
  lemma {:induction false} ValueInjective(base: nat, a: seq<int>, b: seq<int>)
    requires |a| == |b|
    requires forall i :: 0 <= i < |a| ==> 0 <= a[i] < base
    requires forall i :: 0 <= i < |b| ==> 0 <= b[i] < base
    requires ValueOf(base, a) == ValueOf(base, b)
    ensures a == b
  {
    if a != [] {
      var fa, fb := a[..|a| - 1], b[..|b| - 1];
      DivModUnique(base, ValueOf(base, fa), a[|a| - 1], ValueOf(base, a));
      DivModUnique(base, ValueOf(base, fb), b[|b| - 1], ValueOf(base, b));
      ValueInjective(base, fa, fb);
      assert a == fa + [a[|a| - 1]] && b == fb + [b[|b| - 1]];
    }
  }

  lemma {:induction false} DigitCharUnique(c: char, d: char)
    requires DigitOf(c) == DigitOf(d) < 36
    ensures c == d
  {
  }

  /** Numerals of one length and base denote distinct numbers. */
  lemma {:induction false} NumeralInjective(base: nat, s: string, t: string)
    requires base <= 36 && |s| == |t| && IsNumeral(base, s) && IsNumeral(base, t)
    requires NumeralValue(base, s) == NumeralValue(base, t)
    ensures s == t
  {
    ValueInjective(base, DigitsOf(s), DigitsOf(t));
    forall i | 0 <= i < |s| ensures s[i] == t[i] {
      assert DigitsOf(s)[i] == DigitsOf(t)[i];
      DigitCharUnique(s[i], t[i]);
    }
  }

  lemma {:induction false} NumeralAppend(base: nat, s: string, c: char)
    ensures NumeralValue(base, s + [c]) == NumeralValue(base, s) * base + DigitOf(c)
  {
    assert DigitsOf(s + [c])[..|s|] == DigitsOf(s);
  }

  /** Numeral inverts NumeralValue on every value that fits the width. */
  lemma {:induction false} NumeralRoundTrip(base: nat, width: nat, v: nat)
    requires 2 <= base <= 36 && v < Pow(base, width)
    ensures NumeralValue(base, Numeral(base, width, v)) == v
  {
    if width > 0 {
      var q, r := LastDigit(base, width, v);
      NumeralRoundTrip(base, width - 1, q);
      NumeralAppend(base, Numeral(base, width - 1, q), DigitChar(r));
    }
  }

  lemma {:induction false} LastDigit(base: nat, width: nat, v: nat) returns (q: nat, r: nat)
    requires 2 <= base <= 36 && width > 0 && v < Pow(base, width)
    ensures q < Pow(base, width - 1) && r < base && v == q * base + r
    ensures Numeral(base, width, v) == Numeral(base, width - 1, q) + [DigitChar(r)]
  {
    q, r := v / base, v % base;
    DivBound(v, base, Pow(base, width - 1));
  }
}
