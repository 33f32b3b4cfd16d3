/**
 The base64 form of a compressed signature (src/libraries/base64.c:43-231), on byte
 values: bits are moved by multiplication and division.
 */
module Base64 {
  import opened Basics
  import opened Digits
  import opened Base17

  function SymbolOf(v: nat): (c: char)
    requires v < 64
  {
    if v < 26 then 'A' + v as char
    else if v < 52 then 'a' + (v - 26) as char
    else if v < 62 then '0' + (v - 52) as char
    else if v == 62 then '+' else '/'
  }

  /** base64_decode_table; None is -1. */
  function ValueOfSymbol(c: char): (v: Option<nat>)
    ensures v.Some? ==> v.value < 64
  {
    if 'A' <= c <= 'Z' then Some((c - 'A') as nat)
    else if 'a' <= c <= 'z' then Some((c - 'a') as nat + 26)
    else if '0' <= c <= '9' then Some((c - '0') as nat + 52)
    else if c == '+' then Some(62) else if c == '/' then Some(63) else None
  }

  function Encode4(a: uint8, b: uint8, d: uint8): (s: string)
    ensures |s| == 4
  {
    [SymbolOf(a / 4), SymbolOf(a % 4 * 16 + b / 16), SymbolOf(b % 16 * 4 + d / 64), SymbolOf(d % 64)]
  }

  /** knishio_base64_encode. */
  function Encode(bytes: seq<uint8>): (s: string)
    ensures |s| == 4 * ((|bytes| + 2) / 3)
  {
    if bytes == [] then ""
    else if |bytes| == 1 then Encode4(bytes[0], 0, 0)[..2] + "=="
    else if |bytes| == 2 then Encode4(bytes[0], bytes[1], 0)[..3] + "="
    else Encode4(bytes[0], bytes[1], bytes[2]) + Encode(bytes[3..])
  }

  function Decode3(w: nat, x: nat, y: nat, z: nat): (bytes: seq<uint8>)
    requires w < 64 && x < 64 && y < 64 && z < 64
    ensures |bytes| == 3
  {
    [w * 4 + x / 16, x % 16 * 16 + y / 4, y % 4 * 64 + z]
  }

  /** The symbols before the padding: groups of four, then a partial group. */
  function DecodeBody(s: string): Option<seq<uint8>> {
    if s == "" || s[0] == '=' then Some([])
    else
      var w := ValueOfSymbol(s[0]);
      if w.None? then None
      else if |s| == 1 || s[1] == '=' then Some([])
      else
        var x := ValueOfSymbol(s[1]);
        if x.None? then None
        else if |s| == 2 || s[2] == '=' then Some(Decode3(w.value, x.value, 0, 0)[..1])
        else
          var y := ValueOfSymbol(s[2]);
          if y.None? then None
          else if |s| == 3 || s[3] == '=' then Some(Decode3(w.value, x.value, y.value, 0)[..2])
          else
            var z := ValueOfSymbol(s[3]);
            var rest := DecodeBody(s[4..]);
            if z.None? || rest.None? then None
            else Some(Decode3(w.value, x.value, y.value, z.value) + rest.value)
  }

  /** knishio_base64_decode: at most as many bytes as the padding announces. */
  function Decode(s: string): Option<seq<uint8>> {
    if |s| == 0 || |s| % 4 != 0 then None
    else
      var length := |s| / 4 * 3 - (if s[|s| - 1] == '=' then 1 else 0) - (if s[|s| - 2] == '=' then 1 else 0);
      match DecodeBody(s)
      case None => None
      case Some(bytes) => Some(if |bytes| <= length then bytes else bytes[..length])
  }

  lemma {:induction false} SymbolRoundTrip(v: nat)
    requires v < 64
    ensures ValueOfSymbol(SymbolOf(v)) == Some(v) && SymbolOf(v) != '='
  {
  }

  lemma {:induction false} QuadRoundTrip(a: uint8, b: uint8, d: uint8)
    ensures Decode3(a / 4, a % 4 * 16 + b / 16, b % 16 * 4 + d / 64, d % 64) == [a, b, d]
  {
    var x, y := a % 4 * 16 + b / 16, b % 16 * 4 + d / 64;
    assert x / 16 == a % 4 && x % 16 == b / 16;
    assert y / 4 == b % 16 && y % 4 == d / 64;
  }

  lemma {:induction false} EncodeSymbols(a: uint8, b: uint8, d: uint8)
    ensures forall i :: 0 <= i < 4 ==> Encode4(a, b, d)[i] != '='
    ensures ValueOfSymbol(Encode4(a, b, d)[0]) == Some(a / 4)
    ensures ValueOfSymbol(Encode4(a, b, d)[1]) == Some(a % 4 * 16 + b / 16)
    ensures ValueOfSymbol(Encode4(a, b, d)[2]) == Some(b % 16 * 4 + d / 64)
    ensures ValueOfSymbol(Encode4(a, b, d)[3]) == Some(d % 64)
  {
    SymbolRoundTrip(a / 4);
    SymbolRoundTrip(a % 4 * 16 + b / 16);
    SymbolRoundTrip(b % 16 * 4 + d / 64);
    SymbolRoundTrip(d % 64);
  }

  lemma {:induction false} OneByte(a: uint8)
    ensures DecodeBody(Encode([a])) == Some([a])
    ensures Encode([a])[3] == '=' && Encode([a])[2] == '='
  {
    EncodeSymbols(a, 0, 0);
    QuadRoundTrip(a, 0, 0);
    assert Encode([a]) == Encode4(a, 0, 0)[..2] + "==";
    assert Decode3(a / 4, a % 4 * 16, 0, 0)[..1] == [a];
  }

  lemma {:induction false} TwoBytes(a: uint8, b: uint8)
    ensures DecodeBody(Encode([a, b])) == Some([a, b])
    ensures Encode([a, b])[3] == '=' && Encode([a, b])[2] != '='
  {
    EncodeSymbols(a, b, 0);
    QuadRoundTrip(a, b, 0);
    var s := Encode([a, b]);
    assert s == Encode4(a, b, 0)[..3] + "=";
    assert s[0] == Encode4(a, b, 0)[0] && s[1] == Encode4(a, b, 0)[1] && s[2] == Encode4(a, b, 0)[2];
    assert Decode3(a / 4, a % 4 * 16 + b / 16, b % 16 * 4, 0)[..2] == [a, b];
  }

  lemma {:induction false} ThreeBytes(bytes: seq<uint8>)
    requires |bytes| >= 3 && DecodeBody(Encode(bytes[3..])) == Some(bytes[3..])
    ensures DecodeBody(Encode(bytes)) == Some(bytes)
    ensures Encode(bytes)[2] != '=' && Encode(bytes)[3] != '=' && Encode(bytes)[4..] == Encode(bytes[3..])
  {
    var a, b, d := bytes[0], bytes[1], bytes[2];
    EncodeSymbols(a, b, d);
    QuadRoundTrip(a, b, d);
    var s := Encode(bytes);
    assert s == Encode4(a, b, d) + Encode(bytes[3..]);
    assert s[0] == Encode4(a, b, d)[0] && s[1] == Encode4(a, b, d)[1];
    assert s[2] == Encode4(a, b, d)[2] && s[3] == Encode4(a, b, d)[3];
    assert s[4..] == Encode(bytes[3..]);
    assert bytes == [a, b, d] + bytes[3..];
  }

  /** The padding says how many bytes the last group holds. */
  ghost predicate Padded(n: nat, s: string) {
    |s| >= 4 && (s[|s| - 1] == '=' <==> n % 3 != 0) && (s[|s| - 2] == '=' <==> n % 3 == 1)
  }

  lemma {:induction false} PaddedStep(n: nat, s: string)
    requires |s| >= 4 && if n == 3 then |s| == 4 && s[2] != '=' && s[3] != '=' else n > 3 && Padded(n - 3, s[4..])
    ensures Padded(n, s)
  {
    if n > 3 {
      var t := s[4..];
      assert s[|s| - 1] == t[|t| - 1] && s[|s| - 2] == t[|t| - 2];
      assert n % 3 == (n - 3) % 3;
    }
  }

  lemma {:induction false} BodyRoundTrip(bytes: seq<uint8>)
    ensures DecodeBody(Encode(bytes)) == Some(bytes)
    ensures bytes != [] ==> Padded(|bytes|, Encode(bytes))
  {
    if |bytes| == 1 {
      OneByte(bytes[0]);
      assert bytes == [bytes[0]];
    } else if |bytes| == 2 {
      TwoBytes(bytes[0], bytes[1]);
      assert bytes == [bytes[0], bytes[1]];
    } else if |bytes| >= 3 {
      BodyRoundTrip(bytes[3..]);
      ThreeBytes(bytes);
      PaddedStep(|bytes|, Encode(bytes));
    }
  }

  lemma {:induction false} PaddedLength(n: nat)
    ensures (n + 2) / 3 * 3 - (if n % 3 != 0 then 1 else 0) - (if n % 3 == 1 then 1 else 0) == n
  {
  }

  lemma {:induction false} DecodeEncode(bytes: seq<uint8>)
    requires bytes != []
    ensures Decode(Encode(bytes)) == Some(bytes)
  {
    BodyRoundTrip(bytes);
    PaddedLength(|bytes|);
    assert |Encode(bytes)| / 4 == (|bytes| + 2) / 3;
  }

  /** Bytes printed with %02x. */
  function HexText(bytes: seq<uint8>): (hex: string)
    ensures |hex| == 2 * |bytes|
  {
    if bytes == [] then ""
    else
      var last := bytes[|bytes| - 1];
      HexText(bytes[..|bytes| - 1]) + [DigitChar(last / 16), DigitChar(last % 16)]
  }

  /** knishio_hex_to_base64 on lowercase hexadecimal. */
  function HexToBase64(hex: string): Text
    requires IsNumeral(16, hex)
  {
    if |hex| % 2 != 0 then None else Some(Encode(BytesOf(hex, |hex| / 2)))
  }

  /** knishio_base64_to_hex. */
  function Base64ToHex(s: string): Text {
    match Decode(s)
    case None => None
    case Some(bytes) => Some(HexText(bytes))
  }

  lemma {:induction false} HexTextOfBytes(hex: string, n: nat)
    requires IsNumeral(16, hex) && 2 * n <= |hex|
    ensures HexText(BytesOf(hex, n)) == hex[..2 * n]
  {
    if n > 0 {
      HexTextOfBytes(hex, n - 1);
      hide ByteAt, DigitChar, DigitOf;
      assert BytesOf(hex, n)[..n - 1] == BytesOf(hex, n - 1);
      HexOfByte(hex, n - 1);
      TwoMore(hex, 2 * (n - 1));
    }
  }

  lemma {:induction false} TwoMore(hex: string, k: nat)
    requires k + 2 <= |hex|
    ensures hex[..k + 2] == hex[..k] + [hex[k], hex[k + 1]]
  {
  }

  lemma {:induction false} HexOfByte(hex: string, i: nat)
    requires IsNumeral(16, hex) && 2 * i + 1 < |hex|
    ensures [DigitChar(ByteAt(hex, i) / 16), DigitChar(ByteAt(hex, i) % 16)] == [hex[2 * i], hex[2 * i + 1]]
  {
    var b := ByteAt(hex, i);
    DivModUnique(16, DigitOf(hex[2 * i]), DigitOf(hex[2 * i + 1]), b);
    DigitCharUnique(DigitChar(b / 16), hex[2 * i]);
    DigitCharUnique(DigitChar(b % 16), hex[2 * i + 1]);
  }

  /** A compressed signature decompresses to itself. */
  lemma {:induction false} Base64RoundTrip(hex: string)
    requires IsNumeral(16, hex) && hex != "" && |hex| % 2 == 0
    ensures HexToBase64(hex).Some? && |HexToBase64(hex).value| == 4 * ((|hex| / 2 + 2) / 3)
    ensures Base64ToHex(HexToBase64(hex).value) == Some(hex)
  {
    var n := |hex| / 2;
    DecodeEncode(BytesOf(hex, n));
    HexTextOfBytes(hex, n);
    assert hex[..2 * n] == hex;
  }

  // ---------------------------------------------------------------- followed by other text

  /** Decoding stops at the padding: what follows it is not looked at. */
  lemma {:induction false} BodyStops(s: string, t: string)
    requires '=' in s
    ensures DecodeBody(s + t) == DecodeBody(s)
  {
    if |s| > 4 && '=' !in s[..4] {
      TakeDrop(s, 4);
      assert (s + t)[4..] == s[4..] + t;
      BodyStops(s[4..], t);
      assert s[0] in s[..4] && s[1] in s[..4] && s[2] in s[..4] && s[3] in s[..4];
    } else {
      var i :| 0 <= i < |s| && s[i] == '=' && i < 4;
    }
  }

  /** Whole groups without padding give three bytes each, whatever follows. */
  lemma {:induction false} BodyAtLeast(s: string, t: string)
    requires '=' !in s && |s| % 4 == 0
    ensures DecodeBody(s + t).Some? ==> |DecodeBody(s + t).value| >= |s| / 4 * 3
  {
    if s != "" {
      BodyAtLeast(s[4..], t);
      assert (s + t)[4..] == s[4..] + t;
      assert s[0] in s && s[1] in s && s[2] in s && s[3] in s;
    }
  }

  /** A padded text with other text behind it: the number of characters decides. */
  lemma {:induction false} PaddedTail(bytes: seq<uint8>, t: string)
    requires |bytes| % 3 != 0
    ensures Decode(Encode(bytes) + t) == if |t| % 4 == 0 then Some(bytes) else None
  {
    hide DecodeBody, Encode;
    var s := Encode(bytes);
    BodyRoundTrip(bytes);
    assert s[|s| - 1] == '=';
    BodyStops(s, t);
    if t == "" {
      assert s + t == s;
      DecodeEncode(bytes);
    } else {
      LongEnough(|bytes|, |t|);
      AnnouncesMore(s + t, bytes);
    }
  }

  lemma {:induction false} LongEnough(n: nat, more: nat)
    requires more > 0
    ensures (4 * ((n + 2) / 3) + more) % 4 == more % 4
    ensures more % 4 == 0 ==> (4 * ((n + 2) / 3) + more) / 4 * 3 - 2 >= n
  {
  }

  /** When the length announces as many bytes as are there, all of them are taken. */
  lemma {:induction false} AnnouncesMore(s: string, bytes: seq<uint8>)
    requires |s| >= 2 && DecodeBody(s) == Some(bytes) && (|s| % 4 == 0 ==> |s| / 4 * 3 - 2 >= |bytes|)
    ensures Decode(s) == if |s| % 4 == 0 then Some(bytes) else None
  {
  }

  /** Text without padding and more behind it decode to more bytes than the text has groups for, or not at all. */
  lemma {:induction false} PlainTail(s: string, t: string)
    requires '=' !in s && |s| % 4 == 0 && t != ""
    ensures Decode(s + t).Some? ==> |Decode(s + t).value| >= |s| / 4 * 3
  {
    BodyAtLeast(s, t);
  }

  /** The test vectors "f", "fo" and "foobar" of section 10 of RFC 4648. */
  lemma {:induction false} Rfc4648Vectors()
    ensures Encode([102]) == "Zg==" && Encode([102, 111]) == "Zm8="
    ensures Encode([102, 111, 111] + [98, 97, 114]) == "Zm9vYmFy"
  {
    FooBar();
    ShortText(102, 111);
    ThreeMore(102, 111, 111, [98, 97, 114]);
    ThreeMore(98, 97, 114, []);
    hide Encode4, Encode;
    assert [98, 97, 114] + [] == [98, 97, 114] && "YmFy" + "" == "YmFy";
  }

  lemma {:induction false} ShortText(a: uint8, b: uint8)
    ensures Encode([a]) == Encode4(a, 0, 0)[..2] + "==" && Encode([a, b]) == Encode4(a, b, 0)[..3] + "="
  {
  }

  lemma {:induction false} ThreeMore(a: uint8, b: uint8, d: uint8, rest: seq<uint8>)
    ensures Encode([a, b, d] + rest) == Encode4(a, b, d) + Encode(rest) && Encode([]) == ""
  {
    assert ([a, b, d] + rest)[3..] == rest;
  }

  lemma {:induction false} FooBar()
    ensures Encode4(102, 111, 111) == "Zm9v" && Encode4(98, 97, 114) == "YmFy"
    ensures Encode4(102, 0, 0)[..2] == "Zg" && Encode4(102, 111, 0)[..3] == "Zm8"
  {
  }
}
