/** Decimal digit strings and the numbers they denote. */
module Decimal {
  import opened Sorting

  predicate IsDigit(c: char) {
    '0' <= c <= '9'
  }

  predicate AllDigits(s: string) {
    forall i | 0 <= i < |s| :: IsDigit(s[i])
  }

  function DigitValue(c: char): nat
    requires IsDigit(c)
  {
    c as int - '0' as int
  }

  function DigitChar(d: nat): (c: char)
    requires d < 10
    ensures IsDigit(c) && DigitValue(c) == d
  {
    ('0' as int + d) as char
  }

  /** The number a digit string denotes. */
  function Value(s: string): nat
    requires AllDigits(s)
  {
    if s == "" then 0 else Value(s[..|s| - 1]) * 10 + DigitValue(s[|s| - 1])
  }

  /** The decimal numeral of a number, as `%d` prints it. */
  function Numeral(n: nat): (s: string)
    ensures s != "" && AllDigits(s)
  {
    if n < 10 then [DigitChar(n)] else Numeral(n / 10) + [DigitChar(n % 10)]
  }

  /** No superfluous leading zero. */
  predicate IsNumeral(s: string) {
    s != "" && AllDigits(s) && (s[0] == '0' ==> s == "0")
  }

  lemma {:induction false} NumeralValue(n: nat)
    ensures Value(Numeral(n)) == n
    ensures IsNumeral(Numeral(n)) && (Numeral(n)[0] == '0' <==> n == 0)
  {
    var s := Numeral(n);
    if n >= 10 {
      NumeralValue(n / 10);
      assert s[..|s| - 1] == Numeral(n / 10);
    } else {
      assert s[..|s| - 1] == "";
    }
  }

  /** A numeral is the numeral of its value. */
  lemma {:induction false} ValueNumeral(s: string)
    requires IsNumeral(s)
    ensures Numeral(Value(s)) == s
  {
    if |s| == 1 {
      assert s[..0] == "";
      assert s == [s[0]];
    } else {
      var front := s[..|s| - 1];
      assert front[0] == s[0];
      assert IsNumeral(front);
      ValueNumeral(front);
      PositiveValue(front);
      assert Value(s) / 10 == Value(front) && Value(s) % 10 == DigitValue(s[|s| - 1]);
      assert s == front + [s[|s| - 1]];
    }
  }

  lemma {:induction false} PositiveValue(s: string)
    requires s != "" && AllDigits(s) && s[0] != '0'
    ensures Value(s) > 0
  {
    if |s| == 1 {
      assert s[..0] == "";
    } else {
      PositiveValue(s[..|s| - 1]);
    }
  }

  /** `strings.TrimLeft(s, "0")`. */
  function DropZeros(s: string): (r: string)
    ensures r == "" || r[0] != '0'
    ensures AllDigits(s) ==> AllDigits(r)
  {
    if s != "" && s[0] == '0' then DropZeros(s[1..]) else s
  }

  lemma {:induction false} LeadingZero(s: string)
    requires s != "" && AllDigits(s) && s[0] == '0'
    ensures Value(s[1..]) == Value(s)
  {
    if |s| == 1 {
      assert s[1..] == "" && s[..0] == "";
    } else {
      var front := s[..|s| - 1];
      LeadingZero(front);
      assert s[1..][..|s| - 2] == front[1..];
    }
  }

  lemma {:induction false} DropZerosValue(s: string)
    requires AllDigits(s)
    ensures Value(DropZeros(s)) == Value(s)
  {
    if s != "" && s[0] == '0' {
      LeadingZero(s);
      DropZerosValue(s[1..]);
    }
  }

  // ----- numeric order is length first, then dictionary order -----

  function Pow10(n: nat): nat {
    if n == 0 then 1 else 10 * Pow10(n - 1)
  }

  lemma {:induction false} ValueFront(s: string)
    requires s != "" && AllDigits(s)
    ensures Value(s) == DigitValue(s[0]) * Pow10(|s| - 1) + Value(s[1..])
  {
    if |s| == 1 {
      assert s[1..] == "" && s[..0] == "";
    } else {
      var front := s[..|s| - 1];
      ValueFront(front);
      assert s[1..][..|s| - 2] == front[1..];
      TimesTen(DigitValue(s[0]), Pow10(|s| - 2), Value(front[1..]));
    }
  }

  lemma TimesTen(d: nat, p: nat, r: nat)
    ensures (d * p + r) * 10 == d * (10 * p) + r * 10
  {
  }

  lemma {:induction false} ValueBound(s: string)
    requires AllDigits(s)
    ensures Value(s) < Pow10(|s|)
  {
    if s != "" {
      ValueBound(s[..|s| - 1]);
    }
  }

  lemma DigitGap(d: nat, e: nat, p: nat, r: nat)
    requires d < e && r < p
    ensures d * p + r < e * p
  {
    assert (d + 1) * p <= e * p;
  }

  lemma {:induction false} SameLengthOrder(a: string, b: string)
    requires |a| == |b| && AllDigits(a) && AllDigits(b)
    ensures Value(a) < Value(b) <==> Less(a, b)
  {
    if a != "" {
      ValueFront(a);
      ValueFront(b);
      ValueBound(a[1..]);
      ValueBound(b[1..]);
      if a[0] < b[0] {
        DigitGap(DigitValue(a[0]), DigitValue(b[0]), Pow10(|a| - 1), Value(a[1..]));
      } else if b[0] < a[0] {
        DigitGap(DigitValue(b[0]), DigitValue(a[0]), Pow10(|a| - 1), Value(b[1..]));
      } else {
        SameLengthOrder(a[1..], b[1..]);
      }
    }
  }

  lemma LongerIsGreater(a: string, b: string)
    requires IsNumeral(a) && IsNumeral(b) && |a| < |b|
    ensures Value(a) < Value(b)
  {
    ValueBound(a);
    LeadingDigitBound(b);
    Pow10Monotone(|a|, |b| - 1);
  }

  lemma LeadingDigitBound(b: string)
    requires AllDigits(b) && b != "" && b[0] != '0'
    ensures Value(b) >= Pow10(|b| - 1)
  {
    ValueFront(b);
    hide Value, Pow10;
    TimesAtLeast(DigitValue(b[0]), Pow10(|b| - 1));
  }

  lemma TimesAtLeast(d: nat, p: nat)
    requires d >= 1
    ensures d * p >= p
  {
  }

  lemma {:induction false} Pow10Monotone(m: nat, n: nat)
    requires m <= n
    ensures Pow10(m) <= Pow10(n)
    decreases n
  {
    if m < n {
      Pow10Monotone(m, n - 1);
    }
  }

  /** Comparing two numerals by length and then as text compares their values. */
  lemma NumeralOrder(a: string, b: string)
    requires IsNumeral(a) && IsNumeral(b)
    ensures Value(a) < Value(b) <==> |a| < |b| || (|a| == |b| && Less(a, b))
  {
    if |a| == |b| {
      SameLengthOrder(a, b);
    } else if |a| < |b| {
      LongerIsGreater(a, b);
    } else {
      LongerIsGreater(b, a);
    }
  }
}
