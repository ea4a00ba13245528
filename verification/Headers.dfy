/** Header canonicalization (`runtime/request.go:155-176`): keys are merged under their trimmed
    lower-case names. */
module Headers {
  import opened Text
  import opened Sorting

  type HeaderMap = map<string, seq<string>>

  function ValuesOf(h: HeaderMap, name: string): seq<string> {
    if name in h then h[name] else []
  }

  /** The values stored under `name` by the first `n` of the keys, in key order. */
  function Gather(h: HeaderMap, keys: seq<string>, n: nat, name: string): seq<string>
    requires n <= |keys| && forall i | 0 <= i < |keys| :: keys[i] in h
  {
    if n == 0 then []
    else Gather(h, keys, n - 1, name) + if CanonicalName(keys[n - 1]) == name then h[keys[n - 1]] else []
  }

  /** The non-blank canonical names of the first `n` keys. */
  function NamesUpTo(keys: seq<string>, n: nat): set<string>
    requires n <= |keys|
  {
    set i | 0 <= i < n && CanonicalName(keys[i]) != "" :: CanonicalName(keys[i])
  }

  ghost function MergedUpTo(h: HeaderMap, keys: seq<string>, n: nat): HeaderMap
    requires n <= |keys| && forall i | 0 <= i < |keys| :: keys[i] in h
  {
    map name | name in NamesUpTo(keys, n) :: Gather(h, keys, n, name)
  }

  /** What canonicalization yields: every non-blank canonical name, with the values of its keys
      in sorted key order. */
  ghost function Canonical(h: HeaderMap): HeaderMap {
    var keys := SortedListing(h.Keys);
    MergedUpTo(h, keys, |keys|)
  }

  lemma MergeStep(h: HeaderMap, keys: seq<string>, n: nat)
    requires n < |keys| && forall i | 0 <= i < |keys| :: keys[i] in h
    ensures var name := CanonicalName(keys[n]); var m := MergedUpTo(h, keys, n);
            MergedUpTo(h, keys, n + 1) == if name == "" then m else m[name := ValuesOf(m, name) + h[keys[n]]]
  {
    hide CanonicalName, NamesUpTo, Gather;
    var name := CanonicalName(keys[n]);
    var m := MergedUpTo(h, keys, n);
    var next := MergedUpTo(h, keys, n + 1);
    NamesStep(keys, n);
    GatherNone(h, keys, n, name);
    forall x ensures Gather(h, keys, n + 1, x) == Gather(h, keys, n, x) + if name == x then h[keys[n]] else [] {
      GatherStep(h, keys, n, x);
    }
    var expected := if name == "" then m else m[name := ValuesOf(m, name) + h[keys[n]]];
    assert next.Keys == expected.Keys;
    forall x | x in next ensures next[x] == expected[x] {
      assert Gather(h, keys, n, x) + [] == Gather(h, keys, n, x);
    }
  }

  lemma GatherStep(h: HeaderMap, keys: seq<string>, n: nat, x: string)
    requires n < |keys| && forall i | 0 <= i < |keys| :: keys[i] in h
    ensures Gather(h, keys, n + 1, x) == Gather(h, keys, n, x) + if CanonicalName(keys[n]) == x then h[keys[n]] else []
  {
    hide CanonicalName;
  }

  lemma NamesStep(keys: seq<string>, n: nat)
    requires n < |keys|
    ensures var name := CanonicalName(keys[n]);
            NamesUpTo(keys, n + 1) == NamesUpTo(keys, n) + if name == "" then {} else {name}
    ensures "" !in NamesUpTo(keys, n)
  {
    hide CanonicalName;
    var name := CanonicalName(keys[n]);
    forall x
      ensures x in NamesUpTo(keys, n + 1) <==> x in NamesUpTo(keys, n) || (name != "" && x == name)
    {
      if x in NamesUpTo(keys, n + 1) {
        var i :| 0 <= i < n + 1 && CanonicalName(keys[i]) == x && x != "";
      }
    }
  }

  lemma {:induction false} GatherNone(h: HeaderMap, keys: seq<string>, n: nat, name: string)
    requires n <= |keys| && forall i | 0 <= i < |keys| :: keys[i] in h
    ensures name !in NamesUpTo(keys, n) && name != "" ==> Gather(h, keys, n, name) == []
  {
    hide CanonicalName;
    if n > 0 && name !in NamesUpTo(keys, n) && name != "" {
      assert NamesUpTo(keys, n - 1) <= NamesUpTo(keys, n);
      GatherNone(h, keys, n - 1, name);
      assert CanonicalName(keys[n - 1]) != name;
    }
  }

  /** `canonicalizeHeaders`: the result does not depend on the order in which the map's keys
      are enumerated. */
  method CanonicalizeHeaders(h: HeaderMap) returns (out: HeaderMap)
    ensures out == Canonical(h)
  {
    hide CanonicalName, MergedUpTo, Canonical, ValuesOf, StrictlySorted;
    if |h| == 0 {
      CanonicalEmpty(h);
      return map[];
    }
    var keys := EnumerateSorted(h.Keys);
    assert forall i | 0 <= i < |keys| :: keys[i] in keys;
    MergeAll(h, keys);
    out := Merge(h, keys);
  }

  method Merge(h: HeaderMap, keys: seq<string>) returns (out: HeaderMap)
    requires forall i | 0 <= i < |keys| :: keys[i] in h
    ensures out == MergedUpTo(h, keys, |keys|)
  {
    hide CanonicalName, MergedUpTo, ValuesOf;
    out := map[];
    MergeNone(h, keys);
    for i := 0 to |keys|
      invariant out == MergedUpTo(h, keys, i)
    {
      MergeStep(h, keys, i);
      var name := CanonicalName(keys[i]);
      if name == "" {
        continue;
      }
      out := out[name := ValuesOf(out, name) + h[keys[i]]];
    }
  }

  lemma CanonicalEmpty(h: HeaderMap)
    requires |h| == 0
    ensures Canonical(h) == map[]
  {
    assert h.Keys == {};
    assert SortedListing(h.Keys) == [];
  }

  lemma MergeNone(h: HeaderMap, keys: seq<string>)
    requires forall i | 0 <= i < |keys| :: keys[i] in h
    ensures MergedUpTo(h, keys, 0) == map[]
  {
  }

  lemma MergeAll(h: HeaderMap, keys: seq<string>)
    requires keys == SortedListing(h.Keys)
    ensures MergedUpTo(h, keys, |keys|) == Canonical(h)
  {
  }

  // ----- canonicalizing twice -----

  ghost predicate IsCanonical(h: HeaderMap) {
    forall k | k in h :: k != "" && CanonicalName(k) == k
  }

  lemma CanonicalIsCanonical(h: HeaderMap)
    ensures IsCanonical(Canonical(h))
  {
    var keys := SortedListing(h.Keys);
    forall name | name in NamesUpTo(keys, |keys|) ensures name != "" && CanonicalName(name) == name {
      var i :| 0 <= i < |keys| && CanonicalName(keys[i]) == name && name != "";
      CanonicalNameIdempotent(keys[i]);
    }
  }

  lemma TakeOneMore(keys: seq<string>, n: nat, name: string)
    requires n < |keys| && Distinct(keys)
    ensures name in keys[..n + 1] <==> name in keys[..n] || name == keys[n]
    ensures keys[n] !in keys[..n]
  {
    assert keys[..n + 1] == keys[..n] + [keys[n]];
  }

  lemma {:induction false} GatherDistinct(h: HeaderMap, keys: seq<string>, n: nat, name: string)
    requires n <= |keys| && Distinct(keys) && IsCanonical(h)
    requires forall i | 0 <= i < |keys| :: keys[i] in h
    ensures Gather(h, keys, n, name) == if name in keys[..n] then h[name] else []
  {
    hide CanonicalName, Distinct;
    if n > 0 {
      GatherDistinct(h, keys, n - 1, name);
      TakeOneMore(keys, n - 1, name);
      assert CanonicalName(keys[n - 1]) == keys[n - 1];
      hide IsCanonical;
    }
  }

  lemma SortedIsDistinct(s: seq<string>)
    requires StrictlySorted(s)
    ensures Distinct(s)
  {
    forall i, j | 0 <= i < j < |s| ensures s[i] != s[j] {
      LessIrreflexive(s[i]);
    }
  }

  /** Canonical headers stay as they are. */
  lemma CanonicalFixed(h: HeaderMap)
    requires IsCanonical(h)
    ensures Canonical(h) == h
  {
    hide CanonicalName, NamesUpTo, IsCanonical, Gather, StrictlySorted, Distinct;
    var keys := SortedListing(h.Keys);
    SortedIsDistinct(keys);
    assert keys[..|keys|] == keys;
    forall name ensures name in NamesUpTo(keys, |keys|) <==> name in h {
      NamesFixed(h, keys, name);
    }
    forall name | name in h ensures Gather(h, keys, |keys|, name) == h[name] {
      GatherDistinct(h, keys, |keys|, name);
    }
  }

  lemma NamesFixed(h: HeaderMap, keys: seq<string>, name: string)
    requires IsCanonical(h) && forall k :: k in keys <==> k in h
    ensures name in NamesUpTo(keys, |keys|) <==> name in h
  {
    hide CanonicalName;
    if name in h {
      var i :| 0 <= i < |keys| && keys[i] == name;
      assert CanonicalName(keys[i]) == name;
    }
    if name in NamesUpTo(keys, |keys|) {
      var i :| 0 <= i < |keys| && CanonicalName(keys[i]) == name && name != "";
      assert keys[i] in keys;
    }
  }

  lemma CanonicalIdempotent(h: HeaderMap)
    ensures Canonical(Canonical(h)) == Canonical(h)
  {
    CanonicalIsCanonical(h);
    CanonicalFixed(Canonical(h));
  }

  // ----- nothing is lost or invented -----

  /** A key's values stand together under its stored name, in their order. */
  lemma {:induction false} GatheredKey(h: HeaderMap, keys: seq<string>, n: nat, i: nat) returns (before: seq<string>, after: seq<string>)
    requires i < n <= |keys| && forall i | 0 <= i < |keys| :: keys[i] in h
    ensures before == Gather(h, keys, i, CanonicalName(keys[i]))
    ensures Gather(h, keys, n, CanonicalName(keys[i])) == before + h[keys[i]] + after
  {
    hide CanonicalName;
    if i == n - 1 {
      before, after := Gather(h, keys, i, CanonicalName(keys[i])), [];
    } else {
      before, after := GatheredKey(h, keys, n - 1, i);
      after := after + if CanonicalName(keys[n - 1]) == CanonicalName(keys[i]) then h[keys[n - 1]] else [];
    }
  }

  /** Two keys with one stored name are merged: the values of the key that sorts first come first. */
  lemma KeysMerged(h: HeaderMap, j: string, k: string)
    requires j in h && k in h && Less(j, k)
    requires SameLetters(Trim(j), Trim(k)) && Trim(j) != ""
    ensures CanonicalName(j) == CanonicalName(k) && CanonicalName(j) in Canonical(h)
    ensures exists a, b, c: seq<string> :: Canonical(h)[CanonicalName(j)] == a + h[j] + b + h[k] + c
  {
    SameNameExactly(j, k);
    CanonicalNameSmall(j);
    hide Trim, CanonicalName, StrictlySorted;
    var keys := SortedListing(h.Keys);
    assert forall i | 0 <= i < |keys| :: keys[i] in keys;
    var x :| 0 <= x < |keys| && keys[x] == j;
    var y :| 0 <= y < |keys| && keys[y] == k;
    SortedPositions(keys, x, y);
    var a, rest := GatheredKey(h, keys, y, x);
    var before, c := GatheredKey(h, keys, |keys|, y);
    assert CanonicalName(keys[x]) in NamesUpTo(keys, |keys|);
    hide Gather, NamesUpTo;
    assert before + h[k] + c == a + h[j] + rest + h[k] + c;
  }

  lemma SortedPositions(keys: seq<string>, x: nat, y: nat)
    requires StrictlySorted(keys) && x < |keys| && y < |keys| && Less(keys[x], keys[y])
    ensures x < y
  {
    if y < x {
      LessTransitive(keys[x], keys[y], keys[x]);
    }
    LessIrreflexive(keys[x]);
  }

  /** No name of a canonical map contains an ASCII capital, and every non-blank key's values are kept
      under its own trimmed letters. */
  lemma CanonicalNames(h: HeaderMap)
    ensures forall name | name in Canonical(h) :: NoCapitals(name) && IsTrimmed(name) && name != ""
    ensures forall k | k in h && Trim(k) != "" ::
              exists name, a, b: seq<string> ::
                SameLetters(Trim(k), name) && name in Canonical(h) && Canonical(h)[name] == a + h[k] + b
  {
    var keys := SortedListing(h.Keys);
    forall name | name in Canonical(h) ensures NoCapitals(name) && IsTrimmed(name) && name != "" {
      var i :| 0 <= i < |keys| && CanonicalName(keys[i]) == name && name != "";
      CanonicalNameSmall(keys[i]);
    }
    forall k | k in h && Trim(k) != ""
      ensures exists name, a, b: seq<string> ::
                SameLetters(Trim(k), name) && name in Canonical(h) && Canonical(h)[name] == a + h[k] + b
    {
      var a, b := KeyKept(h, k);
      CanonicalNameSmall(k);
      assert SameLetters(Trim(k), CanonicalName(k)) && Canonical(h)[CanonicalName(k)] == a + h[k] + b;
    }
  }

  lemma KeyKept(h: HeaderMap, k: string) returns (a: seq<string>, b: seq<string>)
    requires k in h && Trim(k) != ""
    ensures CanonicalName(k) in Canonical(h) && Canonical(h)[CanonicalName(k)] == a + h[k] + b
  {
    CanonicalNameSmall(k);
    hide CanonicalName, Trim, StrictlySorted;
    var keys := SortedListing(h.Keys);
    assert forall i | 0 <= i < |keys| :: keys[i] in keys;
    var x :| 0 <= x < |keys| && keys[x] == k;
    a, b := GatheredKey(h, keys, |keys|, x);
    assert CanonicalName(keys[x]) in NamesUpTo(keys, |keys|);
  }

  /** All values of a header map, with multiplicity. */
  ghost function AllValues(h: HeaderMap): multiset<string> {
    if h == map[] then multiset{} else
      var k :| k in h;
      multiset(h[k]) + AllValues(h - {k})
  }

  lemma {:induction false} AllValuesRemove(h: HeaderMap, k: string)
    requires k in h
    ensures AllValues(h) == multiset(h[k]) + AllValues(h - {k})
    decreases |h|
  {
    var j :| j in h && AllValues(h) == multiset(h[j]) + AllValues(h - {j});
    if j != k {
      assert k in h - {j} && j in h - {k};
      AllValuesRemove(h - {j}, k);
      AllValuesRemove(h - {k}, j);
      assert h - {j} - {k} == h - {k} - {j};
    }
  }

  lemma AllValuesSet(h: HeaderMap, k: string, values: seq<string>)
    ensures AllValues(h[k := values]) == multiset(values) + AllValues(h - {k})
  {
    AllValuesRemove(h[k := values], k);
    assert h[k := values] - {k} == h - {k};
  }

  lemma AllValuesExtend(h: HeaderMap, k: string, more: seq<string>)
    ensures AllValues(h[k := ValuesOf(h, k) + more]) == AllValues(h) + multiset(more)
  {
    AllValuesSet(h, k, ValuesOf(h, k) + more);
    if k in h {
      AllValuesRemove(h, k);
    } else {
      assert h - {k} == h;
    }
    assert multiset(ValuesOf(h, k) + more) == multiset(ValuesOf(h, k)) + multiset(more);
  }

  /** The part of the map whose keys are not blank. */
  ghost function NonBlank(h: HeaderMap): HeaderMap {
    map k | k in h && CanonicalName(k) != "" :: h[k]
  }

  ghost function NonBlankUpTo(h: HeaderMap, keys: seq<string>, n: nat): HeaderMap
    requires n <= |keys| && forall i | 0 <= i < |keys| :: keys[i] in h
  {
    map k | k in keys[..n] && CanonicalName(k) != "" :: h[k]
  }

  lemma {:induction false} MergeConserves(h: HeaderMap, keys: seq<string>, n: nat)
    requires n <= |keys| && Distinct(keys) && forall i | 0 <= i < |keys| :: keys[i] in h
    ensures AllValues(MergedUpTo(h, keys, n)) == AllValues(NonBlankUpTo(h, keys, n))
  {
    hide CanonicalName, AllValues, MergedUpTo, NonBlankUpTo, ValuesOf, Distinct;
    if n == 0 {
      MergeNone(h, keys);
      NonBlankNone(h, keys);
    } else {
      MergeConserves(h, keys, n - 1);
      MergeStep(h, keys, n - 1);
      NonBlankStep(h, keys, n - 1);
      var k := keys[n - 1];
      if CanonicalName(k) != "" {
        AllValuesExtend(MergedUpTo(h, keys, n - 1), CanonicalName(k), h[k]);
        AllValuesAdd(NonBlankUpTo(h, keys, n - 1), k, h[k]);
      }
    }
  }

  lemma AllValuesAdd(h: HeaderMap, k: string, values: seq<string>)
    requires k !in h
    ensures AllValues(h[k := values]) == AllValues(h) + multiset(values)
  {
    hide AllValues;
    AllValuesSet(h, k, values);
    assert h - {k} == h;
  }

  lemma NonBlankNone(h: HeaderMap, keys: seq<string>)
    requires forall i | 0 <= i < |keys| :: keys[i] in h
    ensures NonBlankUpTo(h, keys, 0) == map[]
  {
  }

  lemma NonBlankStep(h: HeaderMap, keys: seq<string>, n: nat)
    requires n < |keys| && Distinct(keys) && forall i | 0 <= i < |keys| :: keys[i] in h
    ensures var m := NonBlankUpTo(h, keys, n);
            && keys[n] !in m
            && NonBlankUpTo(h, keys, n + 1) == if CanonicalName(keys[n]) == "" then m else m[keys[n] := h[keys[n]]]
  {
    hide CanonicalName;
    assert keys[..n + 1] == keys[..n] + [keys[n]];
  }

  /** Canonicalization keeps exactly the values stored under non-blank keys, each as often as
      it was there. */
  lemma ValuesConserved(h: HeaderMap)
    ensures AllValues(Canonical(h)) == AllValues(NonBlank(h))
  {
    hide CanonicalName, AllValues;
    var keys := SortedListing(h.Keys);
    SortedIsDistinct(keys);
    MergeConserves(h, keys, |keys|);
    assert keys[..|keys|] == keys;
    assert NonBlankUpTo(h, keys, |keys|) == NonBlank(h);
  }
}
