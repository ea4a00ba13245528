/** The parts of Go's `strings` and `unicode` packages the runtime relies on, over
    sequences of Unicode scalar values.  Case mapping covers the ASCII letters. */
module Text {

  datatype Option<+T> = None | Some(value: T)

  /** `unicode.IsSpace`. */
  predicate IsSpace(c: char) {
    var n := c as int;
    || 0x09 <= n <= 0x0D || n == 0x20 || n == 0x85 || n == 0xA0 || n == 0x1680
    || 0x2000 <= n <= 0x200A || n == 0x2028 || n == 0x2029 || n == 0x202F || n == 0x205F || n == 0x3000
  }

  predicate IsTrimmed(s: string) {
    s == "" || (!IsSpace(s[0]) && !IsSpace(s[|s| - 1]))
  }

  function TrimLeft(s: string): (r: string)
    ensures r == "" || !IsSpace(r[0])
    ensures IsTrimmed(s) ==> r == s
    ensures s != "" && !IsSpace(s[|s| - 1]) ==> r != "" && r[|r| - 1] == s[|s| - 1]
  {
    if s != "" && IsSpace(s[0]) then TrimLeft(s[1..]) else s
  }

  function TrimRight(s: string): (r: string)
    ensures r == "" || !IsSpace(r[|r| - 1])
    ensures IsTrimmed(s) ==> r == s
    ensures s != "" && !IsSpace(s[0]) ==> r != "" && r[0] == s[0]
  {
    if s != "" && IsSpace(s[|s| - 1]) then TrimRight(s[..|s| - 1]) else s
  }

  /** `strings.TrimSpace`. */
  function Trim(s: string): (r: string)
    ensures IsTrimmed(r)
    ensures IsTrimmed(s) ==> r == s
  {
    TrimRight(TrimLeft(s))
  }

  predicate AllSpace(s: string) {
    forall i | 0 <= i < |s| :: IsSpace(s[i])
  }

  lemma {:induction false} TrimLeftExact(s: string) returns (lead: string)
    ensures AllSpace(lead) && s == lead + TrimLeft(s)
  {
    lead := "";
    if s != "" && IsSpace(s[0]) {
      hide IsSpace;
      var more := TrimLeftExact(s[1..]);
      lead := [s[0]] + more;
    }
  }

  lemma {:induction false} TrimRightExact(s: string) returns (trail: string)
    ensures AllSpace(trail) && s == TrimRight(s) + trail
  {
    trail := "";
    if s != "" && IsSpace(s[|s| - 1]) {
      hide IsSpace;
      var more := TrimRightExact(s[..|s| - 1]);
      trail := more + [s[|s| - 1]];
    }
  }

  /** Trimming takes nothing but white space from the two ends; as the result is trimmed, it takes all
      of it. */
  lemma TrimExact(s: string) returns (lead: string, trail: string)
    ensures AllSpace(lead) && AllSpace(trail) && s == lead + Trim(s) + trail
  {
    lead := TrimLeftExact(s);
    trail := TrimRightExact(TrimLeft(s));
    hide TrimLeft, TrimRight, AllSpace;
  }

  lemma TrimLeftSkips(lead: string, s: string)
    requires AllSpace(lead)
    ensures TrimLeft(lead + s) == TrimLeft(s)
    decreases |lead|
  {
    if lead == "" {
      assert lead + s == s;
    } else {
      assert (lead + s)[1..] == lead[1..] + s;
      TrimLeftSkips(lead[1..], s);
    }
  }

  lemma TrimRightSkips(s: string, trail: string)
    requires AllSpace(trail)
    ensures TrimRight(s + trail) == TrimRight(s)
    decreases |trail|
  {
    if trail == "" {
      assert s + trail == s;
    } else {
      var n := |trail| - 1;
      assert (s + trail)[..|s| + n] == s + trail[..n];
      TrimRightSkips(s, trail[..n]);
    }
  }

  /** White space around a text that has none at its ends is what trimming takes away. */
  lemma TrimPadded(lead: string, s: string, trail: string)
    requires AllSpace(lead) && AllSpace(trail) && IsTrimmed(s) && s != ""
    ensures Trim(lead + s + trail) == s
  {
    assert lead + s + trail == lead + (s + trail);
    TrimLeftSkips(lead, s + trail);
    assert TrimLeft(s + trail) == s + trail;
    TrimRightSkips(s, trail);
  }

  /** Of the ASCII characters, tab, line feed, vertical tab, form feed, return and space. */
  lemma AsciiSpaces(c: char)
    requires c as int < 0x80
    ensures IsSpace(c) <==> c in {'\t', '\n', 11 as char, 12 as char, '\r', ' '}
  {
  }

  /** `s` does not contain `c`. */
  predicate Avoids(s: string, c: char) {
    forall i | 0 <= i < |s| :: s[i] != c
  }

  lemma TrimAvoids(s: string, c: char)
    requires Avoids(s, c)
    ensures Avoids(Trim(s), c)
  {
    TrimLeftAvoids(s, c);
    TrimRightAvoids(TrimLeft(s), c);
  }

  lemma TrimLeftAvoids(s: string, c: char)
    requires Avoids(s, c)
    ensures Avoids(TrimLeft(s), c)
  {
  }

  lemma TrimRightAvoids(s: string, c: char)
    requires Avoids(s, c)
    ensures Avoids(TrimRight(s), c)
  {
  }

  function LowerChar(c: char): char {
    if 'A' <= c <= 'Z' then ((c as int) + 32) as char else c
  }

  function UpperChar(c: char): char {
    if 'a' <= c <= 'z' then ((c as int) - 32) as char else c
  }

  function Lower(s: string): (r: string)
    ensures |r| == |s| && forall i | 0 <= i < |s| :: r[i] == LowerChar(s[i])
  {
    if s == "" then "" else [LowerChar(s[0])] + Lower(s[1..])
  }

  function Upper(s: string): (r: string)
    ensures |r| == |s| && forall i | 0 <= i < |s| :: r[i] == UpperChar(s[i])
  {
    if s == "" then "" else [UpperChar(s[0])] + Upper(s[1..])
  }

  /** The same character, or the same ASCII letter in the other case. */
  predicate SameLetter(c: char, d: char) {
    || c == d
    || ('A' <= c <= 'Z' && d as int == c as int - 'A' as int + 'a' as int)
    || ('A' <= d <= 'Z' && c as int == d as int - 'A' as int + 'a' as int)
  }

  /** Texts that differ at most in the case of ASCII letters. */
  predicate SameLetters(a: string, b: string) {
    |a| == |b| && forall i | 0 <= i < |a| :: SameLetter(a[i], b[i])
  }

  predicate NoCapitals(s: string) {
    forall i | 0 <= i < |s| :: !('A' <= s[i] <= 'Z')
  }

  predicate NoSmallLetters(s: string) {
    forall i | 0 <= i < |s| :: !('a' <= s[i] <= 'z')
  }

  /** The name under which a header is stored: trimmed, then lower-cased. */
  function CanonicalName(key: string): (r: string)
    ensures IsTrimmed(r)
  {
    Lower(Trim(key))
  }

  /** The stored form of an HTTP method: trimmed, then upper-cased. */
  function CanonicalMethod(name: string): (r: string)
    ensures IsTrimmed(r)
  {
    Upper(Trim(name))
  }

  lemma CanonicalNameIdempotent(key: string)
    ensures CanonicalName(CanonicalName(key)) == CanonicalName(key)
  {
    var k := CanonicalName(key);
    assert Trim(k) == k;
    assert forall i | 0 <= i < |k| :: LowerChar(k[i]) == k[i];
    assert Lower(k) == k;
  }

  /** A stored name is the trimmed key in small letters: no ASCII capital is left, and no other
      character changes. */
  lemma CanonicalNameSmall(key: string)
    ensures NoCapitals(CanonicalName(key)) && SameLetters(Trim(key), CanonicalName(key))
  {
    hide Trim;
  }

  /** Keys share a stored name exactly when they differ only in the case of ASCII letters and in
      surrounding white space. */
  lemma SameNameExactly(a: string, b: string)
    ensures CanonicalName(a) == CanonicalName(b) <==> SameLetters(Trim(a), Trim(b))
  {
    LowerSame(Trim(a), Trim(b));
    hide Trim, Lower, SameLetters;
  }

  lemma LowerCharSame(c: char, d: char)
    ensures LowerChar(c) == LowerChar(d) <==> SameLetter(c, d)
  {
  }

  lemma LowerSame(a: string, b: string)
    ensures Lower(a) == Lower(b) <==> SameLetters(a, b)
  {
    hide Lower, LowerChar, SameLetter;
    if |a| == |b| {
      forall i | 0 <= i < |a| ensures Lower(a)[i] == Lower(b)[i] <==> SameLetter(a[i], b[i]) {
        LowerCharSame(a[i], b[i]);
      }
    }
  }

  /** A stored method is the trimmed name in capitals. */
  lemma CanonicalMethodCapital(name: string)
    ensures NoSmallLetters(CanonicalMethod(name)) && SameLetters(Trim(name), CanonicalMethod(name))
  {
    hide Trim;
  }

  lemma SameMethodExactly(a: string, b: string)
    ensures CanonicalMethod(a) == CanonicalMethod(b) <==> SameLetters(Trim(a), Trim(b))
  {
    UpperSame(Trim(a), Trim(b));
    hide Trim, Upper, SameLetters;
  }

  lemma UpperCharSame(c: char, d: char)
    ensures UpperChar(c) == UpperChar(d) <==> SameLetter(c, d)
  {
  }

  lemma UpperSame(a: string, b: string)
    ensures Upper(a) == Upper(b) <==> SameLetters(a, b)
  {
    hide Upper, UpperChar, SameLetter;
    if |a| == |b| {
      forall i | 0 <= i < |a| ensures Upper(a)[i] == Upper(b)[i] <==> SameLetter(a[i], b[i]) {
        UpperCharSame(a[i], b[i]);
      }
    }
  }

  lemma CanonicalMethodIdempotent(name: string)
    ensures CanonicalMethod(CanonicalMethod(name)) == CanonicalMethod(name)
  {
    var k := CanonicalMethod(name);
    assert Trim(k) == k;
    assert Upper(k) == k;
  }

  function IndexOf(s: string, c: char): (i: nat)
    requires !Avoids(s, c)
    ensures i < |s| && s[i] == c && Avoids(s[..i], c)
  {
    if s[0] == c then 0 else IndexOf(s[1..], c) + 1
  }

  lemma IndexOfUnique(s: string, c: char, i: nat)
    requires i < |s| && s[i] == c && Avoids(s[..i], c)
    ensures !Avoids(s, c) && IndexOf(s, c) == i
  {
    assert !Avoids(s, c);
    var j := IndexOf(s, c);
    assert forall k | 0 <= k < i :: s[..i][k] == s[k];
    assert forall k | 0 <= k < j :: s[..j][k] == s[k];
  }

  predicate AllAvoid(parts: seq<string>, c: char) {
    forall i | 0 <= i < |parts| :: Avoids(parts[i], c)
  }

  /** `strings.Split` with a one-character separator. */
  function Split(s: string, c: char): (parts: seq<string>)
    ensures |parts| >= 1
  {
    if Avoids(s, c) then [s] else
      var i := IndexOf(s, c);
      [s[..i]] + Split(s[i + 1..], c)
  }

  lemma {:induction false} SplitAllAvoid(s: string, c: char)
    ensures AllAvoid(Split(s, c), c)
  {
    if !Avoids(s, c) {
      SplitAllAvoid(s[IndexOf(s, c) + 1..], c);
    }
  }

  lemma {:induction false} SplitAvoids(s: string, c: char, x: char)
    requires Avoids(s, x)
    ensures AllAvoid(Split(s, c), x)
  {
    if !Avoids(s, c) {
      SplitAvoids(s[IndexOf(s, c) + 1..], c, x);
    }
  }

  /** `strings.Join`. */
  function Join(parts: seq<string>, sep: string): string {
    if |parts| == 0 then ""
    else if |parts| == 1 then parts[0]
    else parts[0] + sep + Join(parts[1..], sep)
  }

  lemma {:induction false} JoinSplit(s: string, c: char)
    ensures Join(Split(s, c), [c]) == s
  {
    if !Avoids(s, c) {
      var i := IndexOf(s, c);
      JoinSplit(s[i + 1..], c);
      assert Split(s, c)[1..] == Split(s[i + 1..], c);
      assert s == s[..i] + [c] + s[i + 1..];
    }
  }

  /** Splitting peels off the text before the first separator. */
  lemma SplitCons(a: string, rest: string, c: char)
    requires Avoids(a, c)
    ensures Split(a + [c] + rest, c) == [a] + Split(rest, c)
  {
    var s := a + [c] + rest;
    assert s[..|a|] == a;
    IndexOfUnique(s, c, |a|);
    assert s[|a| + 1..] == rest;
  }

  lemma {:induction false} SplitJoin(parts: seq<string>, c: char)
    requires |parts| >= 1 && AllAvoid(parts, c)
    ensures Split(Join(parts, [c]), c) == parts
  {
    if |parts| == 1 {
      assert parts == [parts[0]];
    } else {
      SplitJoin(parts[1..], c);
      SplitCons(parts[0], Join(parts[1..], [c]), c);
      assert parts == [parts[0]] + parts[1..];
    }
  }

  /** What every part and the separator avoid, the joined text avoids. */
  lemma {:induction false} JoinAvoids(parts: seq<string>, sep: string, c: char)
    requires Avoids(sep, c) && AllAvoid(parts, c)
    ensures Avoids(Join(parts, sep), c)
  {
    if |parts| > 1 {
      JoinAvoids(parts[1..], sep, c);
    }
  }

  /** The joined text ends as its last part does, or with the separator. */
  lemma {:induction false} JoinLast(parts: seq<string>, sep: string)
    requires |parts| >= 1 && sep != ""
    requires |parts| == 1 ==> parts[0] != ""
    ensures var s := Join(parts, sep); var l := parts[|parts| - 1];
            s != "" && s[|s| - 1] == if l == "" then sep[|sep| - 1] else l[|l| - 1]
  {
    if |parts| == 2 && parts[1] == "" {
      assert Join(parts[1..], sep) == "";
    } else if |parts| > 1 {
      JoinLast(parts[1..], sep);
    }
  }
}
