/** The base64 length precheck (`runtime/request.go:69-113`) against a decoder written from
    section 4 of RFC 4648. */
module Base64 {
  import opened Text
  import opened Bytes

  const PAD: Byte := 61
  const CR: Byte := 13
  const LF: Byte := 10

  // ----- section 4 of RFC 4648 -----

  /** Table 1: the value of an alphabet character. */
  function AlphabetValue(c: Byte): (v: Option<nat>)
    ensures v.Some? ==> v.value < 64
  {
    if 65 <= c <= 90 then Some(c - 65)
    else if 97 <= c <= 122 then Some(c - 71)
    else if 48 <= c <= 57 then Some(c + 4)
    else if c == 43 then Some(62)
    else if c == 47 then Some(63)
    else None
  }

  function AlphabetChar(v: nat): (c: Byte)
    requires v < 64
    ensures AlphabetValue(c) == Some(v)
  {
    if v < 26 then v + 65 else if v < 52 then v + 71 else if v < 62 then v - 4 else if v == 62 then 43 else 47
  }

  /** The table in the order of the values: capitals, small letters, digits, "+" and "/". */
  lemma AlphabetTable(v: nat)
    requires v < 64
    ensures AlphabetValue(AlphabetChar(v)) == Some(v)
    ensures AlphabetChar(v) ==
            if v <= 25 then 'A' as int + v
            else if v <= 51 then 'a' as int + (v - 26)
            else if v <= 61 then '0' as int + (v - 52)
            else if v == 62 then '+' as int
            else '/' as int
  {
  }

  predicate IsAlphabet(c: Byte) {
    AlphabetValue(c).Some?
  }

  /** Three bytes from four 6-bit groups. */
  function Triple(a: nat, b: nat, c: nat, d: nat): (r: seq<Byte>)
    requires a < 64 && b < 64 && c < 64 && d < 64
    ensures |r| == 3
  {
    [a * 4 + b / 16, b % 16 * 16 + c / 4, c % 4 * 64 + d]
  }

  /** One encoded quantum; only the final one may be padded. */
  function DecodeQuantum(q: seq<Byte>, final: bool): (r: Option<seq<Byte>>)
    requires |q| == 4
  {
    var a, b, c, d := AlphabetValue(q[0]), AlphabetValue(q[1]), AlphabetValue(q[2]), AlphabetValue(q[3]);
    if a.None? || b.None? then None
    else if c.Some? && d.Some? then Some(Triple(a.value, b.value, c.value, d.value))
    else if final && c.Some? && q[3] == PAD then Some(Triple(a.value, b.value, c.value, 0)[..2])
    else if final && q[2] == PAD && q[3] == PAD then Some(Triple(a.value, b.value, 0, 0)[..1])
    else None
  }

  /** The decoder; bits left over under the padding are not inspected. */
  function Decode(s: seq<Byte>): Option<seq<Byte>> {
    if s == [] then Some([])
    else if |s| < 4 then None
    else
      var q := DecodeQuantum(s[..4], |s| == 4);
      var rest := Decode(s[4..]);
      if q.Some? && rest.Some? then Some(q.value + rest.value) else None
  }

  /** `base64.StdEncoding` skips line breaks anywhere in its input. */
  function Clean(s: seq<Byte>): (r: seq<Byte>) {
    if s == [] then []
    else (if s[0] == CR || s[0] == LF then [] else [s[0]]) + Clean(s[1..])
  }

  // The four 6-bit groups of three bytes.

  function First(x: Byte): (v: nat)
    ensures v < 64
  {
    x / 4
  }

  function Second(x: Byte, y: Byte): (v: nat)
    ensures v < 64
  {
    x % 4 * 16 + y / 16
  }

  function Third(y: Byte, z: Byte): (v: nat)
    ensures v < 64
  {
    y % 16 * 4 + z / 64
  }

  function Fourth(z: Byte): (v: nat)
    ensures v < 64
  {
    z % 64
  }

  lemma TripleOfBytes(x: Byte, y: Byte, z: Byte)
    ensures Triple(First(x), Second(x, y), Third(y, z), Fourth(z)) == [x, y, z]
  {
    FirstByte(x, y);
    SecondByte(x, y, z);
    ThirdByte(y, z);
    hide First, Second, Third, Fourth;
  }

  lemma FirstByte(x: Byte, y: Byte)
    ensures First(x) * 4 + Second(x, y) / 16 == x
  {
  }

  lemma SecondByte(x: Byte, y: Byte, z: Byte)
    ensures Second(x, y) % 16 * 16 + Third(y, z) / 4 == y
  {
  }

  lemma ThirdByte(y: Byte, z: Byte)
    ensures Third(y, z) % 4 * 64 + Fourth(z) == z
  {
  }

  lemma NoBits()
    ensures Third(0, 0) == 0 && Fourth(0) == 0
  {
  }

  /** The encoding of one to three bytes. */
  function EncodeGroup(b: seq<Byte>): (q: seq<Byte>)
    requires 1 <= |b| <= 3
    ensures |q| == 4
  {
    var y, z := if |b| > 1 then b[1] else 0, if |b| > 2 then b[2] else 0;
    [AlphabetChar(First(b[0])), AlphabetChar(Second(b[0], y)),
     if |b| > 1 then AlphabetChar(Third(y, z)) else PAD,
     if |b| > 2 then AlphabetChar(Fourth(z)) else PAD]
  }

  function Encode(b: seq<Byte>): seq<Byte> {
    if b == [] then []
    else if |b| <= 3 then EncodeGroup(b)
    else EncodeGroup(b[..3]) + Encode(b[3..])
  }

  /** The four characters that encode one to three bytes, by their values. */
  lemma DecodeValues(q: seq<Byte>, final: bool, a: nat, b: nat, c: nat, d: nat)
    requires a < 64 && b < 64 && c < 64 && d < 64
    requires q == [AlphabetChar(a), AlphabetChar(b), AlphabetChar(c), AlphabetChar(d)]
    ensures DecodeQuantum(q, final) == Some(Triple(a, b, c, d))
  {
    hide AlphabetValue, AlphabetChar, Triple;
  }

  lemma DecodePadded(q: seq<Byte>, a: nat, b: nat, c: nat)
    requires a < 64 && b < 64 && c < 64
    requires q == [AlphabetChar(a), AlphabetChar(b), AlphabetChar(c), PAD]
    ensures DecodeQuantum(q, true) == Some(Triple(a, b, c, 0)[..2])
  {
    assert AlphabetValue(PAD).None?;
    hide AlphabetValue, AlphabetChar, Triple;
  }

  lemma DecodeTwicePadded(q: seq<Byte>, a: nat, b: nat)
    requires a < 64 && b < 64
    requires q == [AlphabetChar(a), AlphabetChar(b), PAD, PAD]
    ensures DecodeQuantum(q, true) == Some(Triple(a, b, 0, 0)[..1])
  {
    assert AlphabetValue(PAD).None?;
    hide AlphabetValue, AlphabetChar, Triple;
  }

  lemma DecodeThree(x: Byte, y: Byte, z: Byte, final: bool)
    ensures DecodeQuantum(EncodeGroup([x, y, z]), final) == Some([x, y, z])
  {
    hide AlphabetValue, AlphabetChar, Triple, DecodeQuantum, First, Second, Third, Fourth;
    TripleOfBytes(x, y, z);
    DecodeValues(EncodeGroup([x, y, z]), final, First(x), Second(x, y), Third(y, z), Fourth(z));
  }

  lemma DecodeTwo(x: Byte, y: Byte)
    ensures DecodeQuantum(EncodeGroup([x, y]), true) == Some([x, y])
  {
    hide AlphabetValue, AlphabetChar, Triple, DecodeQuantum, First, Second, Third, Fourth;
    TripleOfBytes(x, y, 0);
    NoBits();
    DecodePadded(EncodeGroup([x, y]), First(x), Second(x, y), Third(y, 0));
    assert [x, y, 0][..2] == [x, y];
  }

  lemma DecodeOne(x: Byte)
    ensures DecodeQuantum(EncodeGroup([x]), true) == Some([x])
  {
    hide AlphabetValue, AlphabetChar, Triple, DecodeQuantum, First, Second, Third, Fourth;
    TripleOfBytes(x, 0, 0);
    NoBits();
    DecodeTwicePadded(EncodeGroup([x]), First(x), Second(x, 0));
    assert [x, 0, 0][..1] == [x];
  }

  lemma DecodeGroup(b: seq<Byte>, final: bool)
    requires 1 <= |b| <= 3 && (|b| == 3 || final)
    ensures DecodeQuantum(EncodeGroup(b), final) == Some(b)
  {
    hide DecodeQuantum, EncodeGroup;
    if |b| == 3 {
      DecodeThree(b[0], b[1], b[2], final);
      assert b == [b[0], b[1], b[2]];
    } else if |b| == 2 {
      DecodeTwo(b[0], b[1]);
      assert b == [b[0], b[1]];
    } else {
      DecodeOne(b[0]);
      assert b == [b[0]];
    }
  }

  lemma EncodeNonEmpty(b: seq<Byte>)
    requires b != []
    ensures |Encode(b)| >= 4
  {
  }

  lemma {:induction false} DecodeEncode(b: seq<Byte>)
    ensures Decode(Encode(b)) == Some(b)
  {
    hide EncodeGroup, DecodeQuantum;
    if |b| > 3 {
      DecodeEncode(b[3..]);
      EncodeNonEmpty(b[3..]);
      DecodeGroup(b[..3], false);
      var e := Encode(b);
      assert e[..4] == EncodeGroup(b[..3]) && e[4..] == Encode(b[3..]);
      assert b == b[..3] + b[3..];
    } else if b != [] {
      DecodeGroup(b, true);
      var e := Encode(b);
      assert e[..4] == e && e[4..] == [] && b + [] == b;
    }
  }

  // ----- the shape that decodes -----

  /** `n` alphabet characters followed by at most two padding characters. */
  predicate Shaped(s: seq<Byte>, n: nat) {
    && n <= |s| <= n + 2
    && (forall i | 0 <= i < n :: IsAlphabet(s[i]))
    && (forall i | n <= i < |s| :: s[i] == PAD)
  }

  lemma {:induction false} ShapedDecodes(s: seq<Byte>, n: nat)
    requires Shaped(s, n) && |s| % 4 == 0
    ensures Decode(s).Some? && |Decode(s).value| == |s| / 4 * 3 - (|s| - n)
  {
    if |s| > 4 {
      assert Shaped(s[4..], n - 4);
      ShapedDecodes(s[4..], n - 4);
    } else if |s| == 4 {
      assert s[4..] == [];
    }
  }

  lemma QuantumShape(q: seq<Byte>, final: bool) returns (n: nat)
    requires |q| == 4 && DecodeQuantum(q, final).Some?
    ensures Shaped(q, n) && (!final ==> n == 4)
  {
    n := if IsAlphabet(q[3]) then 4 else if IsAlphabet(q[2]) then 3 else 2;
  }

  lemma {:induction false} DecodedShape(s: seq<Byte>) returns (n: nat)
    requires Decode(s).Some?
    ensures Shaped(s, n) && |s| % 4 == 0
  {
    if s == [] {
      n := 0;
    } else {
      var k := QuantumShape(s[..4], |s| == 4);
      hide DecodeQuantum;
      if |s| == 4 {
        assert s[..4] == s;
        n := k;
      } else {
        var m := DecodedShape(s[4..]);
        ShapedAppend(s[..4], s[4..], m);
        assert s == s[..4] + s[4..];
        n := m + 4;
      }
    }
  }

  lemma ShapedAppend(q: seq<Byte>, s: seq<Byte>, m: nat)
    requires |q| == 4 && Shaped(q, 4) && Shaped(s, m)
    ensures Shaped(q + s, m + 4)
  {
  }

  /** The texts that pass the check are exactly the padded base64 texts. */
  lemma DecodesIffShaped(s: seq<Byte>)
    ensures Decode(s).Some? <==> |s| % 4 == 0 && exists n: nat :: Shaped(s, n)
  {
    if Decode(s).Some? {
      var n := DecodedShape(s);
    }
    forall n: nat | Shaped(s, n) && |s| % 4 == 0 ensures Decode(s).Some? {
      ShapedDecodes(s, n);
    }
  }

  // ----- the one-pass length check -----

  lemma {:induction false} CleanAppend(a: seq<Byte>, b: seq<Byte>)
    ensures Clean(a + b) == Clean(a) + Clean(b)
  {
    if a == [] {
      assert a + b == b;
    } else {
      assert (a + b)[1..] == a[1..] + b;
      CleanAppend(a[1..], b);
    }
  }

  lemma CleanOne(b: Byte)
    ensures Clean([b]) == if b == CR || b == LF then [] else [b]
  {
    assert [b][1..] == [];
  }

  lemma CleanSplit(src: seq<Byte>, i: nat)
    requires i < |src| && src[i] != CR && src[i] != LF
    ensures Clean(src[..i + 1]) == Clean(src[..i]) + [src[i]]
    ensures Clean(src) == Clean(src[..i]) + [src[i]] + Clean(src[i + 1..])
  {
    hide Clean;
    CleanOne(src[i]);
    CleanAppend(src[..i], [src[i]]);
    CleanAppend(src[..i + 1], src[i + 1..]);
    Slices(src, i);
  }

  lemma Slices(src: seq<Byte>, i: nat)
    requires i < |src|
    ensures src[..i + 1] == src[..i] + [src[i]]
    ensures src == src[..i + 1] + src[i + 1..]
  {
  }

  lemma CleanSkip(src: seq<Byte>, i: nat)
    requires i < |src| && (src[i] == CR || src[i] == LF)
    ensures Clean(src[..i + 1]) == Clean(src[..i])
  {
    hide Clean;
    Slices(src, i);
    CleanAppend(src[..i], [src[i]]);
    CleanOne(src[i]);
  }

  lemma BadShape(c: seq<Byte>, n: nat, b: Byte, rest: seq<Byte>, m: nat)
    requires Shaped(c, n)
    requires if b == PAD then |c| == n + 2 else |c| > n || !IsAlphabet(b)
    ensures !Shaped(c + [b] + rest, m)
  {
    var s := c + [b] + rest;
    assert !IsAlphabet(PAD);
    assert s[|c|] == b;
    assert |c| > n ==> s[n] == PAD;
    hide IsAlphabet;
  }

  /** A character that cannot extend the scanned shape makes the whole text undecodable. */
  lemma BadCharacter(c: seq<Byte>, n: nat, b: Byte, rest: seq<Byte>)
    requires Shaped(c, n)
    requires if b == PAD then |c| == n + 2 else |c| > n || !IsAlphabet(b)
    ensures Decode(c + [b] + rest).None?
  {
    hide Shaped, IsAlphabet, Decode;
    forall m: nat ensures !Shaped(c + [b] + rest, m) {
      BadShape(c, n, b, rest, m);
    }
    DecodesIffShaped(c + [b] + rest);
  }

  /** The length the text decodes to, if it does. */
  function MeasuredLength(src: seq<Byte>): Option<nat> {
    match Decode(Clean(src))
    case Some(d) => Some(|d|)
    case None => None
  }

  /** `decodedBase64Len`: the length the text decodes to, or an error exactly when it does not. */
  method DecodedBase64Len(src: seq<Byte>) returns (r: Option<nat>)
    ensures r == MeasuredLength(src)
  {
    var cleanLen: nat := 0;
    var padStart: int := -1;
    var padCount := 0;
    ghost var n: nat := 0;
    for i := 0 to |src|
      invariant cleanLen == |Clean(src[..i])| == n + padCount
      invariant Shaped(Clean(src[..i]), n)
      invariant padStart == if padCount == 0 then -1 else n
    {
      var b := src[i];
      if b == CR || b == LF {
        CleanSkip(src, i);
        continue;
      }
      CleanSplit(src, i);
      if b == PAD {
        if padStart < 0 {
          padStart := cleanLen;
        }
        padCount := padCount + 1;
        if padCount > 2 {
          BadCharacter(Clean(src[..i]), n, b, Clean(src[i + 1..]));
          return None;
        }
        cleanLen := cleanLen + 1;
        continue;
      }
      if padStart >= 0 || !IsAlphabet(b) {
        BadCharacter(Clean(src[..i]), n, b, Clean(src[i + 1..]));
        return None;
      }
      cleanLen := cleanLen + 1;
      n := n + 1;
    }
    assert src[..|src|] == src;
    if cleanLen == 0 {
      return Some(0);
    }
    if cleanLen % 4 != 0 {
      if Decode(Clean(src)).Some? {
        var _ := DecodedShape(Clean(src));
      }
      return None;
    }
    ShapedDecodes(Clean(src), n);
    // The source's last check, `padStart >= 0 && cleanLen - padStart > 2`, cannot fire.
    assert padStart >= 0 ==> cleanLen - padStart == padCount <= 2;
    return Some(cleanLen / 4 * 3 - padCount);
  }

  /** Every encoding, with line breaks inserted anywhere, decodes to the encoded bytes and measures
      as their number. */
  lemma EncodedLength(b: seq<Byte>, src: seq<Byte>)
    requires Clean(src) == Encode(b)
    ensures Decode(Clean(src)) == Some(b) && MeasuredLength(src) == Some(|b|)
  {
    DecodeEncode(b);
    hide Decode, Clean, Encode;
  }

  /** Inserting a line break anywhere does not change what a text measures. */
  lemma BreaksIgnored(before: seq<Byte>, b: Byte, after: seq<Byte>)
    requires b == CR || b == LF
    ensures MeasuredLength(before + [b] + after) == MeasuredLength(before + after)
  {
    hide Clean, Decode;
    CleanAppend(before + [b], after);
    CleanAppend(before, [b]);
    CleanAppend(before, after);
    CleanOne(b);
    assert Clean(before) + [] == Clean(before);
  }
}
