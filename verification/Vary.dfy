/** Comma-separated header values and the deterministic `Vary` merge (`runtime/cache.go`). */
module Vary {
  import opened Text
  import opened Sorting

  /** The trimmed non-blank texts among the first `n` parts. */
  function NonBlankParts(parts: seq<string>, n: nat): seq<string>
    requires n <= |parts|
  {
    if n == 0 then []
    else NonBlankParts(parts, n - 1) + if Trim(parts[n - 1]) != "" then [Trim(parts[n - 1])] else []
  }

  function CommaValues(value: string): seq<string> {
    var parts := Split(Trim(value), ',');
    NonBlankParts(parts, |parts|)
  }

  /** `splitCommaValues`. */
  method SplitCommaValues(value: string) returns (out: seq<string>)
    ensures out == CommaValues(value)
  {
    var trimmed := Trim(value);
    if trimmed == "" {
      BlankHasNoValues(value);
      return [];
    }
    var parts := Split(trimmed, ',');
    out := [];
    hide Trim, Split;
    for i := 0 to |parts|
      invariant out == NonBlankParts(parts, i)
    {
      var part := Trim(parts[i]);
      if part == "" {
        continue;
      }
      out := out + [part];
    }
  }

  /** Exactly the parts that are not blank, trimmed and in order: `at` gives the part each comes from. */
  lemma {:induction false} NonBlankPartsExact(parts: seq<string>, n: nat) returns (at: seq<nat>)
    requires n <= |parts|
    ensures |at| == |NonBlankParts(parts, n)|
    ensures forall k | 0 <= k < |at| :: at[k] < n && NonBlankParts(parts, n)[k] == Trim(parts[at[k]]) != ""
    ensures forall j, k | 0 <= j < k < |at| :: at[j] < at[k]
    ensures forall i | 0 <= i < n && Trim(parts[i]) != "" :: i in at
  {
    hide Trim;
    at := [];
    if n > 0 {
      var before := NonBlankPartsExact(parts, n - 1);
      PartsStep(parts, n);
      hide NonBlankParts;
      at := before;
      if Trim(parts[n - 1]) != "" {
        at := before + [n - 1];
        forall i | 0 <= i < n && Trim(parts[i]) != "" ensures i in at {
          assert at[|before|] == n - 1;
          assert i < n - 1 ==> i in before;
        }
      }
    }
  }

  lemma PartsStep(parts: seq<string>, n: nat)
    requires 0 < n <= |parts|
    ensures NonBlankParts(parts, n) ==
            NonBlankParts(parts, n - 1) + if Trim(parts[n - 1]) != "" then [Trim(parts[n - 1])] else []
  {
    hide Trim;
  }

  /** A list of values printed with commas reads back, each value as often as it stands there. */
  lemma CommaListReads(values: seq<string>)
    requires |values| >= 1 && forall i | 0 <= i < |values| :: PlainValue(values[i])
    ensures CommaValues(Join(values, ",")) == values
  {
    forall i | 0 <= i < |values| ensures values[i] != "" && Trim(values[i]) == values[i] && Avoids(values[i], ',') {
      assert PlainValue(values[i]);
    }
    JoinedTrimmed(values);
    hide Trim, Split, Join, PlainValue;
    SplitJoin(values, ',');
    AllParts(values, |values|);
    assert values[..|values|] == values;
  }

  predicate PlainValue(s: string) {
    s != "" && IsTrimmed(s) && Avoids(s, ',')
  }

  lemma JoinedTrimmed(values: seq<string>)
    requires |values| >= 1 && forall i | 0 <= i < |values| :: PlainValue(values[i])
    ensures Trim(Join(values, ",")) == Join(values, ",")
  {
    assert PlainValue(values[0]) && PlainValue(values[|values| - 1]);
    JoinLast(values, ",");
    JoinFirst(values);
  }

  lemma JoinFirst(values: seq<string>)
    requires |values| >= 1 && values[0] != ""
    ensures Join(values, ",") != "" && Join(values, ",")[0] == values[0][0]
  {
  }

  lemma {:induction false} AllParts(parts: seq<string>, n: nat)
    requires n <= |parts| && forall i | 0 <= i < |parts| :: parts[i] != "" && Trim(parts[i]) == parts[i]
    ensures NonBlankParts(parts, n) == parts[..n]
  {
    hide Trim;
    if n > 0 {
      AllParts(parts, n - 1);
      assert parts[..n] == parts[..n - 1] + [parts[n - 1]];
    }
  }

  /** The tokens of some header values: the small-lettered values between their commas. */
  lemma {:induction false} TokensExact(values: seq<string>, n: nat)
    requires n <= |values|
    ensures forall t :: t in Tokens(values, n) <==>
              exists i, j | 0 <= i < n && 0 <= j < |CommaValues(values[i])| :: t == CanonicalName(CommaValues(values[i])[j]) != ""
  {
    hide CanonicalName, CommaValues;
    if n > 0 {
      TokensExact(values, n - 1);
      var parts := CommaValues(values[n - 1]);
      PartTokensExact(parts, |parts|);
    }
  }

  lemma {:induction false} PartTokensExact(parts: seq<string>, n: nat)
    requires n <= |parts|
    ensures forall t :: t in PartTokens(parts, n) <==> exists j | 0 <= j < n :: t == CanonicalName(parts[j]) != ""
  {
    hide CanonicalName;
    if n > 0 {
      PartTokensExact(parts, n - 1);
    }
  }

  lemma BlankHasNoValues(value: string)
    requires Trim(value) == ""
    ensures CommaValues(value) == []
  {
    assert Split("", ',') == [""];
    assert Trim("") == "";
    hide Trim, Split;
    assert NonBlankParts([""], 0) == [];
  }

  /** The lower-cased names in the first `n` parts of a value. */
  function PartTokens(parts: seq<string>, n: nat): set<string>
    requires n <= |parts|
  {
    if n == 0 then {}
    else PartTokens(parts, n - 1) + if CanonicalName(parts[n - 1]) != "" then {CanonicalName(parts[n - 1])} else {}
  }

  /** All tokens of the first `n` header values. */
  function Tokens(values: seq<string>, n: nat): set<string>
    requires n <= |values|
  {
    if n == 0 then {} else Tokens(values, n - 1) + PartTokens(CommaValues(values[n - 1]), |CommaValues(values[n - 1])|)
  }

  /** The strictly sorted union of the tokens on both sides. */
  ghost function VaryList(existing: seq<string>, add: seq<string>): (r: seq<string>)
    ensures StrictlySorted(r)
    ensures forall t :: t in r <==> t in Tokens(existing, |existing|) || t in Tokens(add, |add|)
  {
    SortedListing(Tokens(existing, |existing|) + Tokens(add, |add|))
  }

  /** The accumulated list: `seen` and `out` hold the same tokens. */
  ghost predicate Accumulated(seen: set<string>, out: seq<string>) {
    Distinct(out) && forall t :: t in out <==> t in seen
  }

  method AddTokens(values: seq<string>, seen0: set<string>, out0: seq<string>) returns (seen: set<string>, out: seq<string>)
    requires Accumulated(seen0, out0)
    ensures Accumulated(seen, out) && seen == seen0 + Tokens(values, |values|)
  {
    seen, out := seen0, out0;
    hide CanonicalName, CommaValues;
    for i := 0 to |values|
      invariant Accumulated(seen, out) && seen == seen0 + Tokens(values, i)
    {
      var parts := SplitCommaValues(values[i]);
      for j := 0 to |parts|
        invariant Accumulated(seen, out) && seen == seen0 + Tokens(values, i) + PartTokens(parts, j)
      {
        var value := CanonicalName(parts[j]);
        if value == "" || value in seen {
          continue;
        }
        seen := seen + {value};
        out := out + [value];
      }
    }
  }

  /** `Vary`. */
  method Merge(existing: seq<string>, add: seq<string>) returns (r: seq<string>)
    ensures r == VaryList(existing, add)
  {
    var seen, out := AddTokens(existing, {}, []);
    seen, out := AddTokens(add, seen, out);
    hide Tokens, StrictlySorted;
    SortIsListing(out, seen);
    assert seen == Tokens(existing, |existing|) + Tokens(add, |add|);
    r := Sort(out);
  }

  // ----- merging twice -----

  /** A token as it appears in a merged list. */
  predicate IsToken(t: string) {
    t != "" && CanonicalName(t) == t && Avoids(t, ',')
  }

  lemma LowerAvoidsComma(s: string)
    requires Avoids(s, ',')
    ensures Avoids(Lower(s), ',')
  {
  }

  lemma CanonicalNameAvoidsComma(s: string)
    requires Avoids(s, ',')
    ensures Avoids(CanonicalName(s), ',')
  {
    TrimAvoids(s, ',');
    LowerAvoidsComma(Trim(s));
  }

  lemma {:induction false} NonBlankPartsAvoid(parts: seq<string>, n: nat)
    requires n <= |parts| && AllAvoid(parts, ',')
    ensures AllAvoid(NonBlankParts(parts, n), ',')
  {
    hide Trim, Avoids;
    if n > 0 {
      NonBlankPartsAvoid(parts, n - 1);
      assert Avoids(parts[n - 1], ',');
      TrimAvoids(parts[n - 1], ',');
    }
  }

  lemma {:induction false} PartTokensAreTokens(parts: seq<string>, n: nat)
    requires n <= |parts| && AllAvoid(parts, ',')
    ensures forall t | t in PartTokens(parts, n) :: IsToken(t)
  {
    hide CanonicalName, Avoids;
    if n > 0 {
      PartTokensAreTokens(parts, n - 1);
      assert Avoids(parts[n - 1], ',');
      CanonicalNameIdempotent(parts[n - 1]);
      CanonicalNameAvoidsComma(parts[n - 1]);
    }
  }

  lemma {:induction false} TokensAreTokens(values: seq<string>, n: nat)
    requires n <= |values|
    ensures forall t | t in Tokens(values, n) :: IsToken(t)
  {
    hide IsToken, CommaValues, PartTokens, AllAvoid;
    if n > 0 {
      var parts := CommaValues(values[n - 1]);
      TokensAreTokens(values, n - 1);
      CommaValuesAvoid(values[n - 1]);
      PartTokensAreTokens(parts, |parts|);
    }
  }

  lemma CommaValuesAvoid(value: string)
    ensures AllAvoid(CommaValues(value), ',')
  {
    hide Split, Trim;
    var parts := Split(Trim(value), ',');
    SplitAllAvoid(Trim(value), ',');
    NonBlankPartsAvoid(parts, |parts|);
  }

  lemma TokenStandsAlone(t: string)
    requires IsToken(t)
    ensures CommaValues(t) == [t]
  {
    assert Trim(t) == t;
    assert Split(t, ',') == [t];
    hide Trim, Split;
    assert NonBlankParts([t], 0) == [];
  }

  lemma {:induction false} TokensOfTokens(values: seq<string>, n: nat)
    requires n <= |values| && forall i | 0 <= i < |values| :: IsToken(values[i])
    ensures forall t :: t in Tokens(values, n) <==> t in values[..n]
  {
    hide CommaValues, CanonicalName, Avoids;
    if n > 0 {
      TokensOfTokens(values, n - 1);
      TokenStandsAlone(values[n - 1]);
      assert PartTokens([values[n - 1]], 0) == {};
      assert PartTokens([values[n - 1]], 1) == {values[n - 1]};
      assert values[..n] == values[..n - 1] + [values[n - 1]];
    }
  }

  /** Merging the same values in again changes nothing. */
  lemma VaryIdempotent(existing: seq<string>, add: seq<string>)
    ensures VaryList(VaryList(existing, add), add) == VaryList(existing, add)
  {
    var r := VaryList(existing, add);
    TokensAreTokens(existing, |existing|);
    TokensAreTokens(add, |add|);
    hide Tokens, IsToken;
    forall i | 0 <= i < |r| ensures IsToken(r[i]) {
      assert r[i] in r;
    }
    TokensOfTokens(r, |r|);
    assert r[..|r|] == r;
    SortedUnique(VaryList(r, add), r);
  }
}
