/** Safe log values (`runtime/safe_log.go`): percent-encoding of the characters that would break
    a `key=value` log line. */
module SafeLog {
  import opened Text
  import opened Bytes
  import opened Utf8

  /** `unicode.IsControl`. */
  predicate IsControl(c: char) {
    var n := c as int;
    n <= 0x1F || 0x7F <= n <= 0x9F
  }

  /** `isUnsafeLogValueRune`. */
  predicate IsUnsafe(c: char) {
    c == '%' || c == '=' || IsSpace(c) || IsControl(c)
  }

  function HexDigit(v: nat): char
    requires v < 16
  {
    "0123456789ABCDEF"[v]
  }

  function EscapeByte(b: Byte): (r: string)
    ensures |r| == 3
  {
    ['%', HexDigit(b / 16), HexDigit(b % 16)]
  }

  function EscapeBytes(bytes: seq<Byte>): string {
    if bytes == [] then "" else EscapeByte(bytes[0]) + EscapeBytes(bytes[1..])
  }

  function SafeChar(c: char): string {
    if IsUnsafe(c) then EscapeBytes(EncodeChar(c)) else [c]
  }

  function Safe(s: string): string {
    if s == "" then "" else SafeChar(s[0]) + Safe(s[1..])
  }

  lemma EscapeBytesStep(bytes: seq<Byte>, i: nat)
    requires i < |bytes|
    ensures EscapeBytes(bytes[i..]) == EscapeByte(bytes[i]) + EscapeBytes(bytes[i + 1..])
  {
    hide EscapeByte;
    assert bytes[i..][1..] == bytes[i + 1..];
  }

  method EscapeRune(c: char) returns (out: string)
    ensures out == EscapeBytes(EncodeChar(c))
  {
    var bytes := EncodeChar(c);
    hide EncodeChar, EscapeByte;
    out := "";
    assert bytes[0..] == bytes;
    for i := 0 to |bytes|
      invariant out + EscapeBytes(bytes[i..]) == EscapeBytes(bytes)
    {
      EscapeBytesStep(bytes, i);
      out := out + EscapeByte(bytes[i]);
    }
  }

  /** What one character contributes to the output. */
  method WriteRune(c: char) returns (out: string)
    ensures out == SafeChar(c)
  {
    if !IsUnsafe(c) {
      return [c];
    }
    out := EscapeRune(c);
  }

  lemma SafeStep(s: string, i: nat)
    requires i < |s|
    ensures Safe(s[i..]) == SafeChar(s[i]) + Safe(s[i + 1..])
  {
    hide SafeChar;
    assert s[i..][1..] == s[i + 1..];
  }

  /** `logSafeValue`. */
  method LogSafeValue(value: string) returns (out: string)
    ensures out == Safe(value)
  {
    out := "";
    if value == "" {
      return;
    }
    hide SafeChar, Safe;
    assert value[0..] == value;
    for i := 0 to |value|
      invariant out + Safe(value[i..]) == Safe(value)
    {
      SafeStep(value, i);
      var piece := WriteRune(value[i]);
      out := out + piece;
    }
    SafeNothing(value);
  }

  lemma SafeNothing(s: string)
    ensures Safe(s[|s|..]) == ""
  {
  }

  // ----- the encoding can be undone -----

  lemma HexDigitByte(v: nat)
    requires v < 16
    ensures HexDigit(v) as int < 128 && EncodeChar(HexDigit(v)) == [HexDigit(v) as int]
    ensures HexValue(HexDigit(v) as int) == Some(v)
  {
  }

  lemma EscapeByteDecodes(b: Byte, rest: seq<Byte>)
    requires PercentDecode(rest).Some?
    ensures PercentDecode(Encode(EscapeByte(b)) + rest) == Some([b] + PercentDecode(rest).value)
  {
    hide HexDigit, HexValue, Encode, PercentDecode;
    HexDigitByte(b / 16);
    HexDigitByte(b % 16);
    var x, y := HexDigit(b / 16), HexDigit(b % 16);
    EncodeThree('%', x, y);
    assert EncodeChar('%') == [PERCENT];
    hide EncodeChar;
    assert Encode(EscapeByte(b)) == [PERCENT, x as int, y as int];
    DecodeEscape(x as int, y as int, rest);
  }

  lemma DecodeEscape(x: Byte, y: Byte, rest: seq<Byte>)
    requires HexValue(x).Some? && HexValue(y).Some? && PercentDecode(rest).Some?
    ensures PercentDecode([PERCENT, x, y] + rest) == Some([HexValue(x).value * 16 + HexValue(y).value] + PercentDecode(rest).value)
  {
    hide HexValue;
    assert ([PERCENT, x, y] + rest)[3..] == rest;
  }

  lemma EncodeThree(x: char, y: char, z: char)
    ensures Encode([x, y, z]) == EncodeChar(x) + EncodeChar(y) + EncodeChar(z)
  {
    EncodeOne(x);
    EncodeOne(y);
    EncodeOne(z);
    EncodeAppend([x], [y]);
    EncodeAppend([x] + [y], [z]);
    hide Encode, EncodeChar;
    assert [x, y, z] == [x] + [y] + [z];
  }

  lemma {:induction false} EscapeBytesDecode(bytes: seq<Byte>, rest: seq<Byte>)
    requires PercentDecode(rest).Some?
    ensures PercentDecode(Encode(EscapeBytes(bytes)) + rest) == Some(bytes + PercentDecode(rest).value)
  {
    hide EscapeByte, PercentDecode;
    if bytes == [] {
      assert Encode("") + rest == rest;
      assert [] + PercentDecode(rest).value == PercentDecode(rest).value;
    } else {
      var head, tail := EscapeByte(bytes[0]), EscapeBytes(bytes[1..]);
      EncodeAppend(head, tail);
      EscapeBytesDecode(bytes[1..], rest);
      EscapeByteDecodes(bytes[0], Encode(tail) + rest);
      hide Encode;
      assert Encode(head) + Encode(tail) + rest == Encode(head) + (Encode(tail) + rest);
      assert bytes + PercentDecode(rest).value == [bytes[0]] + (bytes[1..] + PercentDecode(rest).value);
    }
  }

  lemma PlainCharNoPercent(c: char)
    requires !IsUnsafe(c)
    ensures NoPercent(EncodeChar(c))
  {
  }

  lemma SafeCharDecodes(c: char, rest: seq<Byte>)
    requires PercentDecode(rest).Some?
    ensures PercentDecode(Encode(SafeChar(c)) + rest) == Some(EncodeChar(c) + PercentDecode(rest).value)
  {
    hide EscapeBytes, PercentDecode, EncodeChar, IsUnsafe, NoPercent;
    if IsUnsafe(c) {
      EscapeBytesDecode(EncodeChar(c), rest);
    } else {
      EncodeOne(c);
      PlainCharNoPercent(c);
      PercentDecodePlain(EncodeChar(c), rest);
    }
  }

  lemma EncodeOne(c: char)
    ensures Encode([c]) == EncodeChar(c)
  {
    hide EncodeChar;
    assert [c][1..] == [];
  }

  /** Percent-decoding the bytes of a safe value gives the bytes of the original. */
  lemma {:induction false} SafeDecodes(s: string)
    ensures PercentDecode(Encode(Safe(s))) == Some(Encode(s))
  {
    hide SafeChar, EncodeChar;
    if s != "" {
      SafeDecodes(s[1..]);
      EncodeAppend(SafeChar(s[0]), Safe(s[1..]));
      SafeCharDecodes(s[0], Encode(Safe(s[1..])));
      hide PercentDecode;
    }
  }

  /** Reads a safe value: percent-decoding, then UTF-8. */
  function Unsafe(text: string): Option<string> {
    var bytes := PercentDecode(Encode(text));
    if bytes.None? then None else Utf8.Decode(bytes.value)
  }

  /** Encoding a value for the log loses nothing. */
  lemma SafeRoundTrip(s: string)
    ensures Unsafe(Safe(s)) == Some(s)
  {
    hide PercentDecode, Encode, Utf8.Decode, Safe;
    SafeDecodes(s);
    DecodeEncode(s);
  }

  // ----- the encoding is harmless in a log line -----

  predicate Harmless(s: string) {
    forall i | 0 <= i < |s| :: s[i] == '%' || !IsUnsafe(s[i])
  }

  lemma HexDigitHarmless(v: nat)
    requires v < 16
    ensures !IsUnsafe(HexDigit(v))
  {
  }

  lemma {:induction false} EscapeBytesHarmless(bytes: seq<Byte>)
    ensures Harmless(EscapeBytes(bytes))
  {
    if bytes != [] {
      HexDigitHarmless(bytes[0] / 16);
      HexDigitHarmless(bytes[0] % 16);
      hide HexDigit, IsUnsafe;
      EscapeBytesHarmless(bytes[1..]);
    }
  }

  /** A safe value contains no space, no control character and no "=". */
  lemma {:induction false} SafeHarmless(s: string)
    ensures Harmless(Safe(s))
  {
    if s != "" {
      EscapeBytesHarmless(EncodeChar(s[0]));
      hide IsUnsafe, EscapeBytes, EncodeChar;
      SafeHarmless(s[1..]);
    }
  }

  /** In code points: nothing up to the space, nothing from delete to the no-break space, none of the
      other spaces and line separators, and no "=". */
  lemma SafeCodes(s: string, i: nat)
    requires i < |Safe(s)|
    ensures var n := Safe(s)[i] as int;
            n > 0x20 && !(0x7F <= n <= 0xA0) && n != '=' as int &&
            n !in {0x1680, 0x2028, 0x2029, 0x202F, 0x205F, 0x3000} && !(0x2000 <= n <= 0x200A)
  {
    SafeHarmless(s);
    hide Safe;
  }

  /** Visible ASCII text without "%" and "=" is logged as it is, and a character that is not is written
      byte by byte in capital hexadecimal digits. */
  lemma {:induction false} SafePlainText(s: string)
    requires forall i | 0 <= i < |s| :: '!' <= s[i] <= '~' && s[i] != '%' && s[i] != '='
    ensures Safe(s) == s
  {
    if s != "" {
      SafePlainText(s[1..]);
      assert !IsUnsafe(s[0]);
      assert s == [s[0]] + s[1..];
    }
  }

  lemma SafeExamples()
    ensures SafeChar(' ') == "%20" && SafeChar('%') == "%25" && SafeChar('=') == "%3D" && SafeChar('\n') == "%0A"
    ensures SafeChar(0x2028 as char) == "%E2%80%A8"
  {
    assert EncodeChar(' ') == [0x20] && EncodeChar('%') == [0x25] && EncodeChar('=') == [0x3D] && EncodeChar('\n') == [0x0A];
    assert EncodeChar(0x2028 as char) == [0xE2, 0x80, 0xA8];
    hide EncodeChar;
    EscapeOne(0x20);
    EscapeOne(0x25);
    EscapeOne(0x3D);
    EscapeOne(0x0A);
    EscapeThree(0xE2, 0x80, 0xA8);
  }

  lemma EscapeOne(b: Byte)
    ensures EscapeBytes([b]) == EscapeByte(b)
  {
    hide EscapeByte;
    assert [b][1..] == [];
  }

  lemma EscapeThree(a: Byte, b: Byte, c: Byte)
    ensures EscapeBytes([a, b, c]) == EscapeByte(a) + EscapeByte(b) + EscapeByte(c)
  {
    hide EscapeByte;
    assert [a, b, c][1..] == [b, c];
    assert [b, c][1..] == [c];
    EscapeOne(c);
  }

  lemma HarmlessAvoids(s: string)
    requires Harmless(s)
    ensures Avoids(s, ' ') && Avoids(s, '=')
  {
  }
}
