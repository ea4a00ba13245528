/** UTF-8 (RFC 3629) and percent-encoding (section 2.1 of RFC 3986). */
module Utf8 {
  import opened Text
  import opened Bytes
  import Sorting

  /** The encoding of one scalar value. */
  function EncodeChar(c: char): (r: seq<Byte>)
    ensures 1 <= |r| <= 4
  {
    var n := c as int;
    if n < 0x80 then [n]
    else if n < 0x800 then [0xC0 + n / 64, 0x80 + n % 64]
    else if n < 0x10000 then [0xE0 + n / 4096, 0x80 + n / 64 % 64, 0x80 + n % 64]
    else [0xF0 + n / 262144, 0x80 + n / 4096 % 64, 0x80 + n / 64 % 64, 0x80 + n % 64]
  }

  function Encode(s: string): seq<Byte> {
    if s == "" then [] else EncodeChar(s[0]) + Encode(s[1..])
  }

  predicate IsTail(b: Byte) {
    0x80 <= b <= 0xBF
  }

  predicate IsScalar(n: int) {
    0 <= n < 0xD800 || 0xE000 <= n <= 0x10FFFF
  }

  /** The first character of a byte sequence and its length in bytes. */
  function DecodeFirst(b: seq<Byte>): (r: Option<(char, nat)>)
    ensures r.Some? ==> 1 <= r.value.1 <= |b|
  {
    if b == [] then None
    else if b[0] < 0x80 then Some((b[0] as char, 1))
    else if 0xC2 <= b[0] <= 0xDF && |b| >= 2 && IsTail(b[1]) then
      Some((TwoBytes(b[0], b[1]) as char, 2))
    else if 0xE0 <= b[0] <= 0xEF && |b| >= 3 && IsTail(b[1]) && IsTail(b[2]) then
      var n := ThreeBytes(b[0], b[1], b[2]);
      if n >= 0x800 && IsScalar(n) then Some((n as char, 3)) else None
    else if 0xF0 <= b[0] <= 0xF4 && |b| >= 4 && IsTail(b[1]) && IsTail(b[2]) && IsTail(b[3]) then
      var n := FourBytes(b[0], b[1], b[2], b[3]);
      if n >= 0x10000 && IsScalar(n) then Some((n as char, 4)) else None
    else None
  }

  function TwoBytes(x: int, y: int): int {
    (x - 0xC0) * 64 + (y - 0x80)
  }

  function ThreeBytes(x: int, y: int, z: int): int {
    (x - 0xE0) * 4096 + (y - 0x80) * 64 + (z - 0x80)
  }

  function FourBytes(w: int, x: int, y: int, z: int): int {
    (w - 0xF0) * 262144 + (x - 0x80) * 4096 + (y - 0x80) * 64 + (z - 0x80)
  }

  function Decode(b: seq<Byte>): Option<string>
    decreases |b|
  {
    if b == [] then Some("")
    else
      var first := DecodeFirst(b);
      if first.None? then None
      else
        var rest := Decode(b[first.value.1..]);
        if rest.None? then None else Some([first.value.0] + rest.value)
  }

  lemma TwoByteValue(n: int)
    requires 0x80 <= n < 0x800
    ensures TwoBytes(0xC0 + n / 64, 0x80 + n % 64) == n
    ensures 0xC2 <= 0xC0 + n / 64 <= 0xDF && IsTail(0x80 + n % 64)
  {
  }

  lemma ThreeByteValue(n: int)
    requires 0x800 <= n < 0x10000
    ensures ThreeBytes(0xE0 + n / 4096, 0x80 + n / 64 % 64, 0x80 + n % 64) == n
    ensures 0xE0 <= 0xE0 + n / 4096 <= 0xEF && IsTail(0x80 + n / 64 % 64) && IsTail(0x80 + n % 64)
  {
  }

  /** Four groups of six bits, the first of three. */
  lemma SixBitGroups(n: int)
    requires 0 <= n <= 0x10FFFF
    ensures n == n / 262144 * 262144 + n / 4096 % 64 * 4096 + n / 64 % 64 * 64 + n % 64
  {
    assert n / 4096 == n / 64 / 64 && n / 262144 == n / 64 / 64 / 64;
  }

  lemma FourByteValue(n: int)
    requires 0x10000 <= n <= 0x10FFFF
    ensures FourBytes(0xF0 + n / 262144, 0x80 + n / 4096 % 64, 0x80 + n / 64 % 64, 0x80 + n % 64) == n
    ensures 0xF0 <= 0xF0 + n / 262144 <= 0xF4
    ensures IsTail(0x80 + n / 4096 % 64) && IsTail(0x80 + n / 64 % 64) && IsTail(0x80 + n % 64)
  {
    SixBitGroups(n);
  }

  /** Three characters of the examples in section 7 of RFC 3629. */
  lemma EncodedExamples()
    ensures EncodeChar('A') == [0x41]
    ensures EncodeChar(0x0391 as char) == [0xCE, 0x91]
    ensures EncodeChar(0x2262 as char) == [0xE2, 0x89, 0xA2]
    ensures EncodeChar(0x233B4 as char) == [0xF0, 0xA3, 0x8E, 0xB4]
  {
  }

  lemma DecodeFirstEncoded(c: char, rest: seq<Byte>)
    ensures DecodeFirst(EncodeChar(c) + rest) == Some((c, |EncodeChar(c)|))
  {
    hide TwoBytes, ThreeBytes, FourBytes, IsTail;
    var n := c as int;
    if n < 0x80 {
    } else if n < 0x800 {
      TwoByteValue(n);
    } else if n < 0x10000 {
      ThreeByteValue(n);
    } else {
      FourByteValue(n);
    }
  }

  lemma {:induction false} DecodeEncode(s: string)
    ensures Decode(Encode(s)) == Some(s)
  {
    hide EncodeChar, DecodeFirst;
    if s != "" {
      var head, rest := EncodeChar(s[0]), Encode(s[1..]);
      DecodeFirstEncoded(s[0], rest);
      assert (head + rest)[|head|..] == rest;
      DecodeEncode(s[1..]);
      assert s == [s[0]] + s[1..];
    }
  }

  lemma {:induction false} EncodeAppend(a: string, b: string)
    ensures Encode(a + b) == Encode(a) + Encode(b)
  {
    hide EncodeChar;
    if a == "" {
      assert a + b == b;
    } else {
      assert (a + b)[1..] == a[1..] + b;
      EncodeAppend(a[1..], b);
    }
  }

  // ----- decoding with replacement -----

  const REPLACEMENT: char := 0xFFFD as char

  /** The length of the longest part that could begin a character, where none is complete. */
  function BrokenLength(b: seq<Byte>): (n: nat)
    requires b != []
    ensures 1 <= n <= |b|
  {
    if 0xE0 <= b[0] <= 0xEF && |b| >= 2 && IsSecond(b[0], b[1]) then 2
    else if 0xF0 <= b[0] <= 0xF4 && |b| >= 2 && IsSecond(b[0], b[1]) then
      if |b| >= 3 && IsTail(b[2]) then 3 else 2
    else 1
  }

  /** The second bytes that may follow a lead byte. */
  predicate IsSecond(lead: Byte, b: Byte) {
    (if lead == 0xE0 then 0xA0 else if lead == 0xF0 then 0x90 else 0x80) <= b <=
    (if lead == 0xED then 0x9F else if lead == 0xF4 then 0x8F else 0xBF)
  }

  /** The UTF-8 decoder of the WHATWG Encoding standard: each broken part becomes one replacement
      character. */
  function DecodeReplacing(b: seq<Byte>): string
    decreases |b|
  {
    if b == [] then ""
    else
      match DecodeFirst(b)
      case Some((c, n)) => [c] + DecodeReplacing(b[n..])
      case None => [REPLACEMENT] + DecodeReplacing(b[BrokenLength(b)..])
  }

  /** Complete characters are decoded as they are, whatever follows. */
  lemma {:induction false} DecodeReplacingAfter(s: string, rest: seq<Byte>)
    ensures DecodeReplacing(Encode(s) + rest) == s + DecodeReplacing(rest)
  {
    hide EncodeChar, DecodeFirst, BrokenLength;
    if s == "" {
      assert Encode(s) + rest == rest;
    } else {
      var head, more := EncodeChar(s[0]), Encode(s[1..]) + rest;
      assert Encode(s) + rest == head + more;
      DecodeReplacingStep(s[0], more);
      DecodeReplacingAfter(s[1..], rest);
      hide DecodeReplacing, Encode;
      assert s == [s[0]] + s[1..];
    }
  }

  lemma DecodeReplacingStep(c: char, more: seq<Byte>)
    ensures DecodeReplacing(EncodeChar(c) + more) == [c] + DecodeReplacing(more)
  {
    hide EncodeChar, DecodeFirst, BrokenLength;
    DecodeFirstEncoded(c, more);
    assert (EncodeChar(c) + more)[|EncodeChar(c)|..] == more;
  }

  predicate NoAscii(b: seq<Byte>) {
    forall i | 0 <= i < |b| :: b[i] >= 0x80
  }

  lemma FirstNotAscii(b: seq<Byte>)
    requires b != [] && b[0] >= 0x80
    ensures DecodeFirst(b).Some? ==> DecodeFirst(b).value.0 as int >= 0x80
  {
  }

  /** Bytes outside ASCII never decode to ASCII characters. */
  lemma {:induction false} DecodedNotAscii(b: seq<Byte>)
    requires NoAscii(b)
    ensures forall i | 0 <= i < |DecodeReplacing(b)| :: DecodeReplacing(b)[i] as int >= 0x80
    decreases |b|
  {
    hide DecodeFirst, BrokenLength;
    if b != [] {
      FirstNotAscii(b);
      if DecodeFirst(b).Some? {
        DecodedNotAscii(b[DecodeFirst(b).value.1..]);
      } else {
        DecodedNotAscii(b[BrokenLength(b)..]);
      }
    }
  }

  /** A byte prefix of an encoding: some complete characters, then the first bytes of the next. */
  lemma {:induction false} PrefixDecodes(s: string, n: nat) returns (k: nat, cut: seq<Byte>)
    requires n <= |Encode(s)|
    ensures k <= |s| && Encode(s)[..n] == Encode(s[..k]) + cut && NoAscii(cut)
    ensures n < |Encode(s)| ==> k < |s|
    ensures cut != [] ==> k < |s| && s[k] as int >= 0x80
  {
    hide EncodeChar;
    if s == "" {
      k, cut := 0, [];
    } else {
      var head, more := EncodeChar(s[0]), Encode(s[1..]);
      if n < |head| {
        k, cut := 0, head[..n];
        CharPrefix(s[0], n);
        assert Encode(s)[..n] == head[..n];
      } else {
        k, cut := PrefixDecodes(s[1..], n - |head|);
        assert (head + more)[..n] == head + more[..n - |head|];
        assert s[..k + 1][0] == s[0] && s[..k + 1][1..] == s[1..][..k];
        k := k + 1;
      }
    }
  }

  lemma CharPrefix(c: char, n: nat)
    requires n < |EncodeChar(c)|
    ensures NoAscii(EncodeChar(c)[..n])
    ensures n > 0 ==> c as int >= 0x80
  {
  }

  // ----- order -----

  /** Go compares strings byte by byte. */
  predicate BytesLess(a: seq<Byte>, b: seq<Byte>) {
    b != [] && (a == [] || a[0] < b[0] || (a[0] == b[0] && BytesLess(a[1..], b[1..])))
  }

  /** The byte at which the encodings of two different characters first differ decides; `x` and `y` are
      whatever follows. */
  lemma Decided(common: seq<Byte>, p: Byte, q: Byte, x: seq<Byte>, y: seq<Byte>)
    requires p < q
    ensures BytesLess(common + [p] + x, common + [q] + y) && !BytesLess(common + [q] + y, common + [p] + x)
    decreases |common|
  {
    var a, b := common + [p] + x, common + [q] + y;
    if common != [] {
      Decided(common[1..], p, q, x, y);
      assert a[1..] == common[1..] + [p] + x && b[1..] == common[1..] + [q] + y;
    }
  }

  lemma {:induction false} CommonPrefix(common: seq<Byte>, x: seq<Byte>, y: seq<Byte>)
    ensures BytesLess(common + x, common + y) <==> BytesLess(x, y)
  {
    if common == [] {
      assert common + x == x && common + y == y;
    } else {
      assert (common + x)[1..] == common[1..] + x && (common + y)[1..] == common[1..] + y;
      CommonPrefix(common[1..], x, y);
    }
  }

  /** Lexicographic order of two digits, most significant first. */
  lemma TwoDigits(m: int, n: int)
    requires 0 <= m < n
    ensures m / 64 < n / 64 || (m / 64 == n / 64 && m % 64 < n % 64)
  {
  }

  /** A number's groups of six bits are those of its part above the lowest. */
  lemma HigherGroups(n: int)
    requires 0 <= n
    ensures n / 4096 == n / 64 / 64 && n / 262144 == n / 4096 / 64
  {
  }

  /** The first byte at which two encodings differ. */
  lemma FirstDifference(c: char, d: char) returns (k: nat)
    requires c < d
    ensures k < |EncodeChar(c)| && k < |EncodeChar(d)|
    ensures EncodeChar(c)[..k] == EncodeChar(d)[..k] && EncodeChar(c)[k] < EncodeChar(d)[k]
  {
    var m, n := c as int, d as int;
    if |EncodeChar(c)| != |EncodeChar(d)| || EncodeChar(c)[0] != EncodeChar(d)[0] {
      LeadByte(c, d);
      k := 0;
    } else {
      k := LaterDifference(c, d);
    }
  }

  lemma LeadByte(c: char, d: char)
    requires c < d
    ensures EncodeChar(c)[0] <= EncodeChar(d)[0]
    ensures |EncodeChar(c)| != |EncodeChar(d)| ==> EncodeChar(c)[0] < EncodeChar(d)[0]
  {
  }

  /** Characters with equal lead bytes. */
  lemma LaterDifference(c: char, d: char) returns (k: nat)
    requires c < d && |EncodeChar(c)| == |EncodeChar(d)| && EncodeChar(c)[0] == EncodeChar(d)[0]
    ensures k < |EncodeChar(c)|
    ensures EncodeChar(c)[..k] == EncodeChar(d)[..k] && EncodeChar(c)[k] < EncodeChar(d)[k]
  {
    var m, n := c as int, d as int;
    HigherGroups(m);
    HigherGroups(n);
    LengthRanges(c);
    LengthRanges(d);
    TwoDigits(m, n);
    hide EncodeChar;
    k := |EncodeChar(c)| - 1;
    if m / 64 == n / 64 {
      SameHigherGroups(c, d);
    } else {
      TwoDigits(m / 64, n / 64);
      if m / 4096 == n / 4096 {
        k := k - 1;
        SecondLast(c, d);
      } else {
        TwoDigits(m / 4096, n / 4096);
        k := k - 2;
        ThirdLast(c, d);
      }
    }
  }

  lemma SameHigherGroups(c: char, d: char)
    requires c < d && |EncodeChar(c)| == |EncodeChar(d)| && c as int / 64 == d as int / 64
    ensures var k := |EncodeChar(c)| - 1;
            EncodeChar(c)[..k] == EncodeChar(d)[..k] && EncodeChar(c)[k] < EncodeChar(d)[k]
  {
    var m, n := c as int, d as int;
    HigherGroups(m);
    HigherGroups(n);
    TwoDigits(m, n);
    TailByte(m, n);
  }

  lemma TailByte(m: int, n: int)
    requires 0 <= m < n && m / 64 == n / 64
    ensures m % 64 < n % 64
  {
  }

  lemma SecondLast(c: char, d: char)
    requires |EncodeChar(c)| == |EncodeChar(d)| > 2
    requires c as int / 4096 == d as int / 4096 && c as int / 64 % 64 < d as int / 64 % 64
    ensures var k := |EncodeChar(c)| - 2;
            EncodeChar(c)[..k] == EncodeChar(d)[..k] && EncodeChar(c)[k] < EncodeChar(d)[k]
  {
    HigherGroups(c as int);
    HigherGroups(d as int);
  }

  lemma ThirdLast(c: char, d: char)
    requires |EncodeChar(c)| == |EncodeChar(d)| == 4 && EncodeChar(c)[0] == EncodeChar(d)[0]
    requires c as int / 4096 % 64 < d as int / 4096 % 64
    ensures EncodeChar(c)[..1] == EncodeChar(d)[..1] && EncodeChar(c)[1] < EncodeChar(d)[1]
  {
  }

  /** The length and the lead byte of an encoding. */
  lemma LengthRanges(c: char)
    ensures |EncodeChar(c)| == if c as int < 0x80 then 1 else if c as int < 0x800 then 2 else if c as int < 0x10000 then 3 else 4
    ensures |EncodeChar(c)| == 1 ==> EncodeChar(c)[0] == c as int
    ensures |EncodeChar(c)| == 2 ==> EncodeChar(c)[0] == 0xC0 + c as int / 64
    ensures |EncodeChar(c)| == 3 ==> EncodeChar(c)[0] == 0xE0 + c as int / 4096
    ensures |EncodeChar(c)| == 4 ==> EncodeChar(c)[0] == 0xF0 + c as int / 262144
  {
  }

  /** Comparing two texts code point by code point and comparing their UTF-8 bytes is the same. */
  lemma {:induction false} OrderKept(a: string, b: string)
    ensures Sorting.Less(a, b) <==> BytesLess(Encode(a), Encode(b))
  {
    hide EncodeChar;
    if a != "" && b != "" {
      var x, y := Encode(a[1..]), Encode(b[1..]);
      if a[0] == b[0] {
        CommonPrefix(EncodeChar(a[0]), x, y);
        OrderKept(a[1..], b[1..]);
      } else {
        hide Encode;
        DifferentHeads(a[0], b[0], x, y);
      }
    }
  }

  lemma DifferentHeads(c: char, d: char, x: seq<Byte>, y: seq<Byte>)
    requires c != d
    ensures BytesLess(EncodeChar(c) + x, EncodeChar(d) + y) <==> c < d
  {
    hide EncodeChar, BytesLess;
    if c < d {
      HeadDecides(c, d, x, y);
    } else {
      HeadDecides(d, c, y, x);
    }
  }

  lemma HeadDecides(c: char, d: char, x: seq<Byte>, y: seq<Byte>)
    requires c < d
    ensures BytesLess(EncodeChar(c) + x, EncodeChar(d) + y) && !BytesLess(EncodeChar(d) + y, EncodeChar(c) + x)
  {
    hide EncodeChar, BytesLess;
    var k := FirstDifference(c, d);
    var e, f := EncodeChar(c), EncodeChar(d);
    Decided(e[..k], e[k], f[k], e[k + 1..] + x, f[k + 1..] + y);
    assert e + x == e[..k] + [e[k]] + (e[k + 1..] + x);
    assert f + y == f[..k] + [f[k]] + (f[k + 1..] + y);
  }

  // ----- percent-encoding -----

  const PERCENT: Byte := 0x25

  /** The value of a hexadecimal digit, in either case. */
  function HexValue(b: Byte): (v: Option<nat>)
    ensures v.Some? ==> v.value < 16
  {
    if 0x30 <= b <= 0x39 then Some(b - 0x30)
    else if 0x41 <= b <= 0x46 then Some(b - 0x37)
    else if 0x61 <= b <= 0x66 then Some(b - 0x57)
    else None
  }

  /** Every "%" stands before two hexadecimal digits; the pair stands for one byte. */
  function PercentDecode(b: seq<Byte>): Option<seq<Byte>> {
    if b == [] then Some([])
    else if b[0] != PERCENT then
      var rest := PercentDecode(b[1..]);
      if rest.None? then None else Some([b[0]] + rest.value)
    else if |b| >= 3 && HexValue(b[1]).Some? && HexValue(b[2]).Some? then
      var rest := PercentDecode(b[3..]);
      if rest.None? then None else Some([HexValue(b[1]).value * 16 + HexValue(b[2]).value] + rest.value)
    else None
  }

  predicate NoPercent(b: seq<Byte>) {
    forall i | 0 <= i < |b| :: b[i] != PERCENT
  }

  lemma {:induction false} PercentDecodePlain(plain: seq<Byte>, rest: seq<Byte>)
    requires NoPercent(plain) && PercentDecode(rest).Some?
    ensures PercentDecode(plain + rest) == Some(plain + PercentDecode(rest).value)
  {
    if plain == [] {
      assert plain + rest == rest;
      assert [] + PercentDecode(rest).value == PercentDecode(rest).value;
    } else {
      assert (plain + rest)[1..] == plain[1..] + rest;
      PercentDecodePlain(plain[1..], rest);
      assert plain + PercentDecode(rest).value == [plain[0]] + (plain[1..] + PercentDecode(rest).value);
    }
  }
}
