/** Explicit hash keys of Kinesis records (`runtime/kinesis_producer.go:198-217`). */
module HashKeys {
  import opened Text
  import opened Sorting
  import opened Decimal

  const MAX_KEY: nat := 0xFFFF_FFFF_FFFF_FFFF_FFFF_FFFF_FFFF_FFFF
  const MAX_KEY_TEXT := "340282366920938463463374607431768211455"

  /** `text` is a digit string denoting `n`. */
  predicate Denotes(text: string, n: nat) {
    AllDigits(text) && Value(text) == n
  }

  lemma Extend(n: nat, text: string, more: string, all: string)
    requires Denotes(text, n) && |more| == 3 && AllDigits(more) && all == text + more
    ensures Denotes(all, n * 1000 + DigitValue(more[0]) * 100 + DigitValue(more[1]) * 10 + DigitValue(more[2]))
  {
    var k := |text|;
    assert all[..k] == text;
    assert all[..k + 1][..k] == text;
    assert all[..k + 2][..k + 1] == all[..k + 1];
    assert all[..k + 3] == all && all[..k + 3][..k + 2] == all[..k + 2];
    assert Value(all[..k + 1]) == n * 10 + DigitValue(more[0]);
    assert Value(all[..k + 2]) == Value(all[..k + 1]) * 10 + DigitValue(more[1]);
  }

  lemma DenotesTo12()
    ensures Denotes("340282366920", 340282366920)
  {
    assert Denotes("", 0);
    hide Denotes;
    Extend(0, "", "340", "340");
    Extend(340, "340", "282", "340282");
    Extend(340282, "340282", "366", "340282366");
    Extend(340282366, "340282366", "920", "340282366920");
  }

  lemma DenotesTo21()
    ensures Denotes("340282366920938463463", 340282366920938463463)
  {
    DenotesTo12();
    hide Denotes;
    Extend(340282366920, "340282366920", "938", "340282366920938");
    Extend(340282366920938, "340282366920938", "463", "340282366920938463");
    Extend(340282366920938463, "340282366920938463", "463", "340282366920938463463");
  }

  lemma DenotesTo27()
    ensures Denotes("340282366920938463463374607", 340282366920938463463374607)
  {
    DenotesTo21();
    hide Denotes;
    Extend(340282366920938463463, "340282366920938463463", "374", "340282366920938463463374");
    Extend(340282366920938463463374, "340282366920938463463374", "607", "340282366920938463463374607");
  }

  lemma DenotesTo33()
    ensures Denotes("340282366920938463463374607431768", 340282366920938463463374607431768)
  {
    DenotesTo27();
    hide Denotes;
    Extend(340282366920938463463374607, "340282366920938463463374607", "431", "340282366920938463463374607431");
    Extend(340282366920938463463374607431, "340282366920938463463374607431", "768", "340282366920938463463374607431768");
  }

  /** The text constant denotes 2^128 - 1, read off three digits at a time. */
  lemma MaxKeyText()
    ensures IsNumeral(MAX_KEY_TEXT) && |MAX_KEY_TEXT| == 39
    ensures Value(MAX_KEY_TEXT) == MAX_KEY
  {
    DenotesTo33();
    hide Denotes, Value;
    Extend(340282366920938463463374607431768, "340282366920938463463374607431768", "211", "340282366920938463463374607431768211");
    Extend(340282366920938463463374607431768211, "340282366920938463463374607431768211", "455", "340282366920938463463374607431768211455");
    MaxKeyDenoted();
  }

  lemma MaxKeyDenoted()
    requires Denotes(MAX_KEY_TEXT, MAX_KEY)
    ensures IsNumeral(MAX_KEY_TEXT) && |MAX_KEY_TEXT| == 39 && Value(MAX_KEY_TEXT) == MAX_KEY
  {
  }

  /** The normalized key: nothing for a rejected one, the empty text for a blank one. */
  function NormalizedKey(value: string): Option<string> {
    var key := Trim(value);
    if key == "" then Some("")
    else if AllDigits(key) && Value(key) <= MAX_KEY then Some(Numeral(Value(key)))
    else None
  }

  /** `normalizeKinesisExplicitHashKey`: digit strings are accepted up to 2^128 - 1 and become the
      numeral of their value. */
  method NormalizeExplicitHashKey(value: string) returns (r: Option<string>)
    ensures r == NormalizedKey(value)
  {
    hide Trim;
    var key := Trim(value);
    if key == "" {
      return Some("");
    }
    for i := 0 to |key|
      invariant forall k | 0 <= k < i :: IsDigit(key[k])
    {
      if key[i] < '0' || key[i] > '9' {
        assert !IsDigit(key[i]);
        return None;
      }
    }
    ghost var given := key;
    DropZerosValue(key);
    key := DropZeros(key);
    if key == "" {
      key := "0";
      assert "0"[..0] == "";
    }
    assert IsNumeral(key) && Value(key) == Value(given);
    MaxKeyText();
    hide MAX_KEY_TEXT, Value;
    NumeralOrder(MAX_KEY_TEXT, key);
    if |key| > |MAX_KEY_TEXT| || (|key| == |MAX_KEY_TEXT| && Less(MAX_KEY_TEXT, key)) {
      return None;
    }
    ValueNumeral(key);
    return Some(key);
  }

  lemma NumeralTrimmed(s: string)
    requires s != "" && AllDigits(s)
    ensures Trim(s) == s
  {
    assert !IsSpace(s[0]) && !IsSpace(s[|s| - 1]);
  }

  /** Normalizing a normalized key changes nothing. */
  lemma NormalizedKeyIdempotent(value: string)
    requires NormalizedKey(value).Some?
    ensures NormalizedKey(NormalizedKey(value).value) == NormalizedKey(value)
  {
    hide Trim, MAX_KEY;
    var key := Trim(value);
    if key != "" {
      NumeralValue(Value(key));
      NumeralTrimmed(Numeral(Value(key)));
    } else {
      BlankTrimmed();
    }
  }

  lemma BlankTrimmed()
    ensures Trim("") == ""
  {
  }

  /** Two accepted keys normalize alike exactly when they denote the same number. */
  lemma NormalizedKeyInjective(a: string, b: string)
    requires NormalizedKey(a).Some? && NormalizedKey(b).Some? && Trim(a) != "" && Trim(b) != ""
    ensures NormalizedKey(a) == NormalizedKey(b) <==> Value(Trim(a)) == Value(Trim(b))
  {
    hide Trim, MAX_KEY;
    NumeralValue(Value(Trim(a)));
    NumeralValue(Value(Trim(b)));
  }
}
