/**
 knishio_json_number_to_string from the digits onwards (src/atom.c:802-876): the digits
 and exponent that %.*e printed are laid out in a 64-byte buffer.
 */
module NumberPrinter {
  import opened Digits
  import opened Decimal

  const MAX_DIGITS: nat := 17
  const TEXT_SIZE: nat := 64

  /** A double as %.*e shows it: d.ddd times 10^exponent, digits with possible trailing zeros. */
  datatype Double = NotFinite | ZeroValue | Finite(negative: bool, digits: string, exponent: int)

  predicate IsDouble(v: Double) {
    v.Finite? ==>
      IsSignificant(v.digits) && |v.digits| <= MAX_DIGITS && -324 <= v.exponent <= 308
  }

  function NumberOf(v: Double): Number
    requires !v.NotFinite?
  {
    if v.ZeroValue? then Zero else Number(v.negative, Stripped(v.digits), v.exponent + 1)
  }

  /** The printed text and its terminator fit the 32 bytes the header promises are enough. */
  lemma {:induction false} LayoutFits(v: Double)
    requires IsDouble(v) && !v.NotFinite?
    ensures |Layout(NumberOf(v))| < 32
  {
    if v.Finite? {
      ExponentTextFits(v.exponent);
      hide ExponentText;
    }
  }

  /** The digits with zeros up to the point, and the plain text they make. */
  lemma {:induction false} PlainForm(digits: string, n: int) returns (full: string)
    requires digits != "" && |digits| <= MAX_DIGITS && 0 < n <= 21
    ensures |full| == (if n > |digits| then n else |digits|) && full[..|digits|] == digits
    ensures forall i :: |digits| <= i < |full| ==> full[i] == '0'
    ensures Unsigned(digits, n) == if |full| <= n then full else full[..n] + "." + full[n..]
  {
    full := digits + Zeros(if n > |digits| then n - |digits| else 0);
  }

  /** Writes one character behind the text that starts at start. */
  method PutChar(text: array<char>, start: nat, at: nat, ch: char) returns (len: nat)
    requires start <= at < text.Length
    modifies text
    ensures len == at + 1 && text[..start] == old(text[..start]) && text[start..len] == old(text[start..at]) + [ch]
  {
    text[at] := ch;
    len := at + 1;
  }

  /** Layout forms one and two: digits with the point after n of them, zeros up to n. */
  method PutPlain(text: array<char>, start: nat, digits: string, n: int) returns (len: nat)
    requires digits != "" && |digits| <= MAX_DIGITS && 0 < n <= 21
    requires text.Length == TEXT_SIZE && start <= 1
    modifies text
    ensures start <= len <= start + 22 && text[..start] == old(text[..start])
    ensures text[start..len] == Unsigned(digits, n)
  {
    hide Unsigned, Zeros;
    len := start;
    var nd := |digits|;
    ghost var full := PlainForm(digits, n);
    var i := 0;
    while i < nd || i < n
      invariant 0 <= i <= |full| && len == start + i + (if i > n then 1 else 0)
      invariant text[..start] == old(text[..start])
      invariant text[start..len] == if i <= n then full[..i] else full[..n] + "." + full[n..i]
      decreases |full| - i
    {
      if i == n {
        len := PutChar(text, start, len, '.');
      }
      len := PutChar(text, start, len, if i < nd then digits[i] else '0');
      i := i + 1;
    }
    assert full[..|full|] == full;
  }

  /** Copies s into the buffer at position at. */
  method PutText(text: array<char>, at: nat, s: string) returns (len: nat)
    requires at + |s| <= text.Length
    modifies text
    ensures len == at + |s| && text[..len] == old(text[..at]) + s
  {
    len := at;
    for i := 0 to |s|
      invariant len == at + i && text[..len] == old(text[..at]) + s[..i]
    {
      text[len] := s[i];
      len := len + 1;
      assert s[..i + 1] == s[..i] + [s[i]];
    }
    assert s[..|s|] == s;
  }

  /** Removes trailing zeros, keeping one digit. */
  method StripZeros(digits: string) returns (nd: nat)
    requires digits != ""
    ensures nd <= |digits| && digits[..nd] == Stripped(digits)
  {
    nd := |digits|;
    assert digits[..nd] == digits;
    while nd > 1 && digits[nd - 1] == '0'
      invariant 0 < nd <= |digits| && Stripped(digits[..nd]) == Stripped(digits)
    {
      assert digits[..nd][..nd - 1] == digits[..nd - 1];
      nd := nd - 1;
    }
  }

  lemma {:induction false} ExponentTextFits(e: int)
    requires -324 <= e <= 308
    ensures |ExponentText(e)| <= 5
  {
    NatTextValue(if e < 0 then -e else e);
    assert Pow(10, 3) == 1000;
  }

  /** Layout form three: leading zeros after "0.". */
  method PutSmall(text: array<char>, start: nat, digits: string, n: int) returns (len: nat)
    requires |digits| <= MAX_DIGITS && -6 < n <= 0
    requires text.Length == TEXT_SIZE && start <= 1
    modifies text
    ensures len <= text.Length && text[..len] == old(text[..start]) + Unsigned(digits, n)
  {
    ghost var sign := text[..start];
    len := PutText(text, start, "0.");
    len := PutText(text, len, seq(-n, _ => '0'));
    len := PutText(text, len, digits);
    assert text[..len] == sign + "0." + Zeros(-n) + digits;
    assert sign + "0." + Zeros(-n) + digits == sign + ("0." + Zeros(-n) + digits);
  }

  /** The mantissa of the exponent form: one digit, then the others after a point. */
  method PutMantissa(text: array<char>, start: nat, digits: string) returns (len: nat)
    requires digits != "" && start + |digits| + 1 <= text.Length
    modifies text
    ensures start <= len <= start + |digits| + 1
    ensures text[..len] == old(text[..start]) + (if |digits| > 1 then digits[..1] + "." + digits[1..] else digits)
  {
    ghost var sign := text[..start];
    len := PutText(text, start, [digits[0]]);
    if |digits| > 1 {
      len := PutText(text, len, ".");
      len := PutText(text, len, digits[1..]);
      assert sign + [digits[0]] + "." + digits[1..] == sign + (digits[..1] + "." + digits[1..]);
    }
  }

  /** The exponent form. */
  method PutExponent(text: array<char>, start: nat, digits: string, n: int) returns (len: nat)
    requires digits != "" && |digits| <= MAX_DIGITS && !(-6 < n <= 21) && -324 <= n - 1 <= 308
    requires text.Length == TEXT_SIZE && start <= 1
    modifies text
    ensures len <= text.Length && text[..len] == old(text[..start]) + Unsigned(digits, n)
  {
    hide Unsigned, ExponentText, Pow;
    ghost var sign := text[..start];
    var exponent := ExponentText(n - 1);
    ExponentTextFits(n - 1);
    ExponentForm(digits, n);
    len := PutMantissa(text, start, digits);
    ghost var mantissa := text[start..len];
    len := PutText(text, len, exponent);
    assert sign + mantissa + exponent == sign + (mantissa + exponent);
  }

  /** The unsigned text behind what the buffer holds already. */
  method PutUnsigned(text: array<char>, start: nat, digits: string, n: int) returns (len: nat)
    requires digits != "" && |digits| <= MAX_DIGITS && -324 <= n - 1 <= 308
    requires text.Length == TEXT_SIZE && start <= 1
    modifies text
    ensures len <= text.Length && text[..len] == old(text[..start]) + Unsigned(digits, n)
  {
    if 0 < n <= 21 {
      len := PutPlain(text, start, digits, n);
      assert text[..len] == text[..start] + text[start..len];
    } else if -6 < n <= 0 {
      len := PutSmall(text, start, digits, n);
    } else {
      len := PutExponent(text, start, digits, n);
    }
  }

  /** The whole function: false exactly for a non-finite value or a buffer that is too small. */
  method NumberToString(v: Double, size: nat) returns (ok: bool, out: string)
    requires IsDouble(v)
    ensures ok <==> !v.NotFinite? && |Layout(NumberOf(v))| < size
    ensures ok ==> out == Layout(NumberOf(v))
  {
    if v.NotFinite? {
      return false, "";
    }
    if v.ZeroValue? {
      return 1 < size, "0";
    }
    var nd := StripZeros(v.digits);
    var n := v.exponent + 1;
    var text := new char[TEXT_SIZE];
    var len := 0;
    assert text[..0] == "";
    if v.negative {
      len := PutText(text, len, "-");
    }
    len := PutUnsigned(text, len, v.digits[..nd], n);
    out := text[..len];
    ok := |out| < size;
  }
}
