/** Go's string order and `sort.Strings`, on code points; that the UTF-8 bytes compare alike is
    proved as `Utf8.OrderKept`. */
module Sorting {

  predicate Less(a: string, b: string) {
    b != "" && (a == "" || a[0] < b[0] || (a[0] == b[0] && Less(a[1..], b[1..])))
  }

  lemma {:induction false} LessIrreflexive(a: string)
    ensures !Less(a, a)
  {
    if a != "" { LessIrreflexive(a[1..]); }
  }

  lemma {:induction false} LessTransitive(a: string, b: string, c: string)
    requires Less(a, b) && Less(b, c)
    ensures Less(a, c)
  {
    if a != "" && a[0] == b[0] && b[0] == c[0] { LessTransitive(a[1..], b[1..], c[1..]); }
  }

  lemma {:induction false} LessTotal(a: string, b: string)
    ensures a == b || Less(a, b) || Less(b, a)
  {
    if a != "" && b != "" && a[0] == b[0] {
      LessTotal(a[1..], b[1..]);
      assert a == [a[0]] + a[1..] && b == [b[0]] + b[1..];
    }
  }

  predicate StrictlySorted(s: seq<string>) {
    forall i, j | 0 <= i < j < |s| :: Less(s[i], s[j])
  }

  predicate Sorted(s: seq<string>) {
    forall i, j | 0 <= i < j < |s| :: s[i] == s[j] || Less(s[i], s[j])
  }

  function Elements(s: seq<string>): set<string> {
    set x | x in s
  }

  predicate Distinct(s: seq<string>) {
    forall i, j | 0 <= i < j < |s| :: s[i] != s[j]
  }

  function Insert(x: string, s: seq<string>): (r: seq<string>)
    ensures multiset(r) == multiset(s) + multiset{x}
    ensures forall y :: y in r <==> y == x || y in s
  {
    if s == [] then [x]
    else if Less(s[0], x) then
      assert s == [s[0]] + s[1..];
      [s[0]] + Insert(x, s[1..])
    else [x] + s
  }

  /** What `sort.Strings` leaves in its argument. */
  function Sort(s: seq<string>): (r: seq<string>)
    ensures multiset(r) == multiset(s)
  {
    if s == [] then [] else
      assert s == [s[0]] + s[1..];
      Insert(s[0], Sort(s[1..]))
  }

  lemma {:induction false} InsertSorted(x: string, s: seq<string>)
    requires Sorted(s)
    ensures Sorted(Insert(x, s))
  {
    if s != [] {
      if Less(s[0], x) {
        InsertSorted(x, s[1..]);
        var r := Insert(x, s[1..]);
        assert forall y | y in r :: s[0] == y || Less(s[0], y);
      } else {
        LessTotal(s[0], x);
        forall j | 0 <= j < |s| ensures x == s[j] || Less(x, s[j]) {
          if Less(x, s[0]) && Less(s[0], s[j]) { LessTransitive(x, s[0], s[j]); }
        }
      }
    }
  }

  lemma {:induction false} SortSorts(s: seq<string>)
    ensures Sorted(Sort(s))
    ensures Distinct(s) ==> StrictlySorted(Sort(s))
    ensures Elements(Sort(s)) == Elements(s)
  {
    var r := Sort(s);
    SortSortedOnly(s);
    assert forall x :: x in r <==> x in multiset(s);
    if Distinct(s) {
      DistinctByCounts(s, r);
    }
  }

  lemma {:induction false} SortSortedOnly(s: seq<string>)
    ensures Sorted(Sort(s))
  {
    if s != [] {
      SortSortedOnly(s[1..]);
      InsertSorted(s[0], Sort(s[1..]));
    }
  }

  lemma {:induction false} DistinctCounts(s: seq<string>)
    requires Distinct(s)
    ensures forall x :: multiset(s)[x] <= 1
  {
    if s != [] {
      DistinctCounts(s[1..]);
      assert s == [s[0]] + s[1..];
      assert s[0] !in s[1..];
    }
  }

  lemma DistinctByCounts(s: seq<string>, r: seq<string>)
    requires Distinct(s) && multiset(r) == multiset(s)
    ensures Distinct(r)
  {
    DistinctCounts(s);
    forall i, j | 0 <= i < j < |r| ensures r[i] != r[j] {
      assert r == r[..i] + [r[i]] + r[i + 1..];
      assert r[j] == r[i + 1..][j - i - 1];
      assert multiset(r)[r[i]] == multiset(r[..i])[r[i]] + 1 + multiset(r[i + 1..])[r[i]];
    }
  }

  /** A strictly sorted list is determined by its elements. */
  lemma {:induction false} SortedUnique(a: seq<string>, b: seq<string>)
    requires StrictlySorted(a) && StrictlySorted(b)
    requires forall x :: x in a <==> x in b
    ensures a == b
  {
    assert a == [] <==> b == [] by {
      if a != [] { assert a[0] in b; }
      if b != [] { assert b[0] in a; }
    }
    if a != [] {
      HeadIsLeast(a, b);
      SortedTail(a);
      SortedTail(b);
      SortedUnique(a[1..], b[1..]);
      assert a == [a[0]] + a[1..] && b == [b[0]] + b[1..];
    }
  }

  lemma HeadIsLeast(a: seq<string>, b: seq<string>)
    requires StrictlySorted(a) && StrictlySorted(b) && a != [] && b != []
    requires forall x :: x in a <==> x in b
    ensures a[0] == b[0]
  {
    assert a[0] in b && b[0] in a;
    if a[0] != b[0] {
      assert Less(a[0], b[0]) && Less(b[0], a[0]);
      LessTransitive(a[0], b[0], a[0]);
      LessIrreflexive(a[0]);
    }
  }

  lemma SortedTail(a: seq<string>)
    requires StrictlySorted(a) && a != []
    ensures StrictlySorted(a[1..])
    ensures forall x :: x in a[1..] <==> x in a && x != a[0]
  {
    forall x | x in a[1..] ensures x != a[0] {
      var i :| 0 <= i < |a[1..]| && a[1..][i] == x;
      assert Less(a[0], a[i + 1]);
      LessIrreflexive(x);
    }
    assert a == [a[0]] + a[1..];
  }

  lemma {:induction false} InsertStrict(x: string, s: seq<string>)
    requires StrictlySorted(s) && x !in s
    ensures StrictlySorted(Insert(x, s))
  {
    if s != [] {
      if Less(s[0], x) {
        SortedTail(s);
        InsertStrict(x, s[1..]);
        var r := Insert(x, s[1..]);
        assert forall y | y in r :: Less(s[0], y);
      } else {
        LessTotal(s[0], x);
        forall j | 0 <= j < |s| ensures Less(x, s[j]) {
          if j > 0 { LessTransitive(x, s[0], s[j]); }
        }
      }
    }
  }

  /** The strictly sorted listing of a finite set. */
  ghost function SortedListing(s: set<string>): (r: seq<string>)
    ensures forall x :: x in r <==> x in s
    ensures StrictlySorted(r)
  {
    if s == {} then [] else
      var x :| x in s;
      var r := SortedListing(s - {x});
      InsertStrict(x, r);
      Insert(x, r)
  }

  /** Sorting any enumeration of a set gives its one sorted listing. */
  lemma SortIsListing(keys: seq<string>, s: set<string>)
    requires Distinct(keys)
    requires forall x :: x in keys <==> x in s
    ensures Sort(keys) == SortedListing(s)
  {
    SortSorts(keys);
    assert forall x :: x in Sort(keys) <==> x in multiset(Sort(keys));
    SortedUnique(Sort(keys), SortedListing(s));
  }

  /** Keys of a Go map in whatever order the iteration happens to yield them. */
  method Enumerate(s: set<string>) returns (keys: seq<string>)
    ensures Distinct(keys)
    ensures forall x :: x in keys <==> x in s
  {
    keys := [];
    var todo := s;
    while todo != {}
      invariant Distinct(keys)
      invariant todo <= s
      invariant forall x :: x in keys <==> x in s && x !in todo
      decreases todo
    {
      var k :| k in todo;
      keys := keys + [k];
      todo := todo - {k};
    }
  }

  /** The sorted listing of a set, built the way the runtime does: enumerate, then sort. */
  method EnumerateSorted(s: set<string>) returns (keys: seq<string>)
    ensures keys == SortedListing(s)
  {
    var all := Enumerate(s);
    SortIsListing(all, s);
    keys := Sort(all);
  }
}
