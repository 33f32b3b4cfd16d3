/**
 The molecular hash alphabet: 256-bit hexadecimal digests rewritten as 64 base-17
 digits by in-place long division over 32 bytes (src/molecule.c:266-277, 579-642).
 */
module Base17 {
  import opened Basics
  import opened Digits

  type uint8 = x: int | 0 <= x < 256

  const HASH_LENGTH: nat := 64
  const DIGEST_BYTES: nat := 32

  /** Exactly 64 characters of [0-9a-g]. */
  predicate IsSignable(hash: string) {
    |hash| == HASH_LENGTH && IsNumeral(17, hash)
  }

  method HashIsSignable(hash: Text) returns (ok: bool)
    ensures ok <==> hash.Some? && IsSignable(hash.value)
  {
    if hash.None? {
      return false;
    }
    var length := 0;
    while length < |hash.value|
      invariant length <= |hash.value| && length <= HASH_LENGTH
      invariant IsNumeral(17, hash.value[..length])
    {
      var c := hash.value[length];
      if length == HASH_LENGTH || !('0' <= c <= '9' || 'a' <= c <= 'g') {
        assert length < HASH_LENGTH ==> DigitOf(hash.value[length]) >= 17;
        return false;
      }
      length := length + 1;
    }
    assert hash.value[..length] == hash.value;
    return length == HASH_LENGTH;
  }

  /** A digest as printed with %02x. */
  predicate IsDigest(hex: string) {
    |hex| == 2 * DIGEST_BYTES && IsNumeral(16, hex)
  }

  /** The base-17 text of a digest: the same number, in 64 digits. */
  function ToBase17(hex: string): (hash: string)
    requires IsDigest(hex)
    ensures IsSignable(hash)
  {
    NumeralBound(hex);
    Numeral(17, HASH_LENGTH, NumeralValue(16, hex))
  }

  lemma {:induction false} NumeralBound(hex: string)
    requires IsDigest(hex)
    ensures 0 <= NumeralValue(16, hex) < Pow(17, HASH_LENGTH)
  {
    NumeralRange(16, hex);
    PowBaseMonotone(16, 17, HASH_LENGTH);
  }

  /** 64 digits suffice, so no bit of the digest is lost and no two digests collide. */
  lemma {:induction false} ToBase17Faithful(hex: string, other: string)
    requires IsDigest(hex) && IsDigest(other)
    ensures NumeralValue(17, ToBase17(hex)) == NumeralValue(16, hex)
    ensures ToBase17(hex) == ToBase17(other) ==> hex == other
  {
    NumeralBound(hex);
    NumeralBound(other);
    NumeralRoundTrip(17, HASH_LENGTH, NumeralValue(16, hex));
    NumeralRoundTrip(17, HASH_LENGTH, NumeralValue(16, other));
    if ToBase17(hex) == ToBase17(other) {
      NumeralInjective(16, hex, other);
    }
  }

  function ByteAt(hex: string, i: nat): (b: uint8)
    requires IsNumeral(16, hex) && 2 * i + 1 < |hex|
  {
    DigitOf(hex[2 * i]) * 16 + DigitOf(hex[2 * i + 1])
  }

  function BytesOf(hex: string, n: nat): (bytes: seq<uint8>)
    requires IsNumeral(16, hex) && 2 * n <= |hex|
    ensures |bytes| == n
  {
    seq(n, i requires 0 <= i < n => ByteAt(hex, i))
  }

  /** Reading two hexadecimal digits a byte keeps the number. */
  lemma {:induction false} BytesValue(hex: string, n: nat)
    requires IsNumeral(16, hex) && 2 * n <= |hex|
    ensures ValueOf(256, BytesOf(hex, n)) == NumeralValue(16, hex[..2 * n])
  {
    if n > 0 {
      BytesValue(hex, n - 1);
      var front := hex[..2 * (n - 1)];
      assert BytesOf(hex, n)[..n - 1] == BytesOf(hex, n - 1);
      assert hex[..2 * n] == front + [hex[2 * n - 2]] + [hex[2 * n - 1]];
      NumeralAppend(16, front, hex[2 * n - 2]);
      NumeralAppend(16, front + [hex[2 * n - 2]], hex[2 * n - 1]);
    }
  }

  /** Some byte is non-zero iff the number is. */
  lemma {:induction false} ZeroValue(bytes: seq<uint8>)
    ensures ValueOf(256, bytes) >= 0
    ensures ValueOf(256, bytes) == 0 <==> forall i :: 0 <= i < |bytes| ==> bytes[i] == 0
  {
    if bytes != [] {
      ZeroValue(bytes[..|bytes| - 1]);
    }
  }

  method IsZero(num: array<uint8>) returns (zero: bool)
    ensures zero <==> ValueOf(256, num[..]) == 0
  {
    ZeroValue(num[..]);
    zero := true;
    for i := 0 to num.Length
      invariant zero
      invariant forall j :: 0 <= j < i ==> num[j] == 0
    {
      if num[i] != 0 {
        zero := false;
        assert num[..][i] != 0;
        return;
      }
    }
  }

  /** One pass of the long division: the whole number by 17, in place. */
  method DivideBy17(num: array<uint8>) returns (remainder: int)
    modifies num
    ensures 0 <= remainder < 17
    ensures ValueOf(256, old(num[..])) == 17 * ValueOf(256, num[..]) + remainder
  {
    remainder := 0;
    ghost var was := num[..];
    for i := 0 to num.Length
      invariant 0 <= remainder < 17
      invariant num[i..] == was[i..]
      invariant ValueOf(256, was[..i]) == 17 * ValueOf(256, num[..i]) + remainder
    {
      var temp := remainder * 256 + num[i];
      ghost var q := num[..i];
      num[i] := temp / 17;
      remainder := temp % 17;
      assert was[..i + 1] == was[..i] + [was[i]];
      assert num[..i + 1] == q + [temp / 17];
      assert was[..i + 1][..i] == was[..i] && num[..i + 1][..i] == q;
    }
    assert was[..num.Length] == was && num[..num.Length] == num[..];
  }

  /** The bytes of a digest, two hexadecimal characters each. */
  method ParseBytes(hex: string) returns (num: array<uint8>)
    requires IsDigest(hex)
    ensures fresh(num) && ValueOf(256, num[..]) == NumeralValue(16, hex)
  {
    num := new uint8[DIGEST_BYTES];
    for i := 0 to DIGEST_BYTES
      invariant forall j :: 0 <= j < i ==> num[j] == ByteAt(hex, j)
    {
      num[i] := ByteAt(hex, i);
    }
    BytesValue(hex, DIGEST_BYTES);
    assert num[..] == BytesOf(hex, DIGEST_BYTES);
    assert hex[..2 * DIGEST_BYTES] == hex;
  }

  /** One division, its remainder written in front of the digits so far: there is a place for it. */
  method EmitDigit(num: array<uint8>, result: array<char>, resultIdx: int, ghost base: nat, ghost v: int)
    returns (next: int)
    requires result.Length == HASH_LENGTH && -1 <= resultIdx < HASH_LENGTH && base == 17 && v < Pow(base, HASH_LENGTH)
    requires ValueOf(256, num[..]) > 0 && IsNumeral(17, result[resultIdx + 1..])
    requires Divided(base, ValueOf(256, num[..]), result[resultIdx + 1..], v)
    modifies num, result
    ensures -1 <= next < HASH_LENGTH && 0 <= ValueOf(256, num[..]) < old(ValueOf(256, num[..]))
    ensures IsNumeral(17, result[next + 1..]) && Divided(base, ValueOf(256, num[..]), result[next + 1..], v)
  {
    hide Pow, Divided, ValueOf;
    ghost var before, tail := ValueOf(256, num[..]), result[resultIdx + 1..];
    DigitsLeft(base, HASH_LENGTH, before, tail, v);
    var remainder := DivideBy17(num);
    ZeroValue(num[..]);
    PrependDigit(base, DigitChar(remainder), tail, before, ValueOf(256, num[..]), v);
    next := resultIdx;
    if next >= 0 {
      result[next] := DigitChar(remainder);
      next := next - 1;
      assert result[next + 1..] == [DigitChar(remainder)] + tail;
    }
  }

  /** Repeated division, digits written right to left. No digit is dropped for want of a place. */
  method EmitDigits(num: array<uint8>, result: array<char>) returns (resultIdx: int)
    requires result.Length == HASH_LENGTH
    requires ValueOf(256, num[..]) < Pow(17, HASH_LENGTH)
    modifies num, result
    ensures -1 <= resultIdx < HASH_LENGTH
    ensures IsNumeral(17, result[resultIdx + 1..])
    ensures NumeralValue(17, result[resultIdx + 1..]) == old(ValueOf(256, num[..]))
  {
    ghost var v, base := ValueOf(256, num[..]), 17;
    StartDivision(base, v);
    ZeroValue(num[..]);
    hide Pow, Divided, ValueOf;
    resultIdx := HASH_LENGTH - 1;
    assert result[resultIdx + 1..] == "";
    var zero := IsZero(num);
    while !zero
      invariant -1 <= resultIdx < HASH_LENGTH && IsNumeral(17, result[resultIdx + 1..])
      invariant ValueOf(256, num[..]) >= 0 && (zero <==> ValueOf(256, num[..]) == 0)
      invariant Divided(base, ValueOf(256, num[..]), result[resultIdx + 1..], v)
      decreases ValueOf(256, num[..])
    {
      resultIdx := EmitDigit(num, result, resultIdx, base, v);
      zero := IsZero(num);
    }
    FinishDivision(base, result[resultIdx + 1..], v);
  }

  lemma {:induction false} StartDivision(base: nat, v: int)
    ensures Divided(base, v, "", v)
  {
  }

  lemma {:induction false} FinishDivision(base: nat, tail: string, v: int)
    requires Divided(base, 0, tail, v)
    ensures NumeralValue(base, tail) == v
  {
  }

  /** Fills the places before the digits. */
  method PadZeros(result: array<char>, n: nat)
    requires n <= result.Length
    modifies result
    ensures result[n..] == old(result[n..]) && forall j :: 0 <= j < n ==> result[j] == '0'
  {
    for i := 0 to n
      invariant result[n..] == old(result[n..])
      invariant forall j :: 0 <= j < i ==> result[j] == '0'
    {
      result[i] := '0';
    }
  }

  /** hex_to_base17: the digits of the quotients, padded with '0' to 64 places. */
  method HexToBase17(hex: string) returns (hash: Text)
    requires IsNumeral(16, hex)
    ensures hash == if |hex| == 64 then Some(ToBase17(hex)) else None
  {
    if |hex| != 64 {
      return None;
    }
    hide ToBase17;
    var digits := ConvertDigest(hex);
    hash := Some(digits);
  }

  /** The conversion of 64 digits. */
  method ConvertDigest(hex: string) returns (hash: string)
    requires IsDigest(hex)
    ensures hash == ToBase17(hex)
  {
    hide Pow, ToBase17, NumeralValue, ValueOf, IsNumeral, IsDigest;
    var num := ParseBytes(hex);
    NumeralBound(hex);
    var result := new char[HASH_LENGTH];
    var resultIdx := EmitDigits(num, result);
    ghost var low := result[resultIdx + 1..];
    PadZeros(result, resultIdx + 1);
    TakeDrop(result[..], resultIdx + 1);
    PaddedIs(hex, result[..resultIdx + 1], low);
    hash := result[..];
  }

  /** The padded digits of a digest's number are its text. */
  lemma {:induction false} PaddedIs(hex: string, zeros: string, low: string)
    requires IsDigest(hex) && |zeros + low| == HASH_LENGTH && IsNumeral(17, low)
    requires (forall j :: 0 <= j < |zeros| ==> zeros[j] == '0') && NumeralValue(17, low) == NumeralValue(16, hex)
    ensures zeros + low == ToBase17(hex)
  {
    hide Pow, ToBase17, NumeralValue;
    LeadingZeros(17, zeros, low, NumeralValue(16, hex));
    ToBase17Faithful(hex, hex);
    NumeralInjective(17, zeros + low, ToBase17(hex));
  }

  /** A partly divided number: the quotient still in the bytes, then the digits emitted so far. */
  ghost predicate Divided(base: nat, quotient: int, tail: string, v: int) {
    quotient * Pow(base, |tail|) + NumeralValue(base, tail) == v
  }

  /** While the quotient is not zero a place is left, because v < base^places. */
  lemma {:induction false} DigitsLeft(base: nat, places: nat, quotient: int, tail: string, v: int)
    requires base > 0 && quotient > 0 && IsNumeral(base, tail)
    requires Divided(base, quotient, tail, v) && v < Pow(base, places)
    ensures |tail| < places
  {
    hide Pow, NumeralValue, IsNumeral;
    NumeralRange(base, tail);
    PowPositive(base, |tail|);
    AtLeastPlace(quotient, Pow(base, |tail|), NumeralValue(base, tail));
    if |tail| >= places {
      PowIncreases(base, places, |tail|);
    }
  }

  lemma {:induction false} AtLeastPlace(quotient: int, p: int, low: int)
    requires quotient > 0 && p > 0 && low >= 0
    ensures quotient * p + low >= p
  {
    MulAtLeast(p, quotient);
  }

  /** Moving a remainder in front of the emitted digits keeps the number. */
  lemma {:induction false} PrependDigit(base: nat, c: char, tail: string, before: int, after: int, v: int)
    requires before == base * after + DigitOf(c)
    requires Divided(base, before, tail, v)
    ensures Divided(base, after, [c] + tail, v)
  {
    assert DigitsOf([c] + tail) == DigitsOf([c]) + DigitsOf(tail);
    ValueConcat(base, DigitsOf([c]), DigitsOf(tail));
    NumeralAppend(base, "", c);
    assert "" + [c] == [c];
    ShiftStep(base, after, DigitOf(c), Pow(base, |tail|));
  }

  lemma {:induction false} ShiftStep(base: nat, q: int, d: int, p: nat)
    ensures (base * q + d) * p == q * (base * p) + d * p
  {
    assert (base * q) * p == q * (base * p);
  }

  lemma {:induction false} LeadingZeros(base: nat, zeros: string, low: string, v: int)
    requires forall j :: 0 <= j < |zeros| ==> zeros[j] == '0'
    requires NumeralValue(base, low) == v
    ensures NumeralValue(base, zeros + low) == v
  {
    if zeros == "" {
      assert zeros + low == low;
    } else {
      LeadingZeros(base, zeros[1..], low, v);
      assert zeros + low == ['0'] + (zeros[1..] + low);
      PrependDigit(base, '0', zeros[1..] + low, 0, 0, v);
    }
  }
}
