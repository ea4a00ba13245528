/** Scopes and principals (`runtime/auth.go`). */
module Auth {
  import opened Text
  import opened Sorting

  datatype Principal = Principal(identity: string, scopes: seq<string>)

  /** Trimmed, non-blank, each scope at its first occurrence among the first `n`. */
  function NormalizedScopes(scopes: seq<string>, n: nat): seq<string>
    requires n <= |scopes|
  {
    if n == 0 then []
    else
      var before := NormalizedScopes(scopes, n - 1);
      var scope := Trim(scopes[n - 1]);
      if scope == "" || scope in before then before else before + [scope]
  }

  /** `normalizeScopeList`. */
  method NormalizeScopeList(scopes: seq<string>) returns (out: seq<string>)
    ensures out == NormalizedScopes(scopes, |scopes|)
  {
    hide Trim;
    out := [];
    var seen: set<string> := {};
    for i := 0 to |scopes|
      invariant out == NormalizedScopes(scopes, i)
      invariant forall s :: s in seen <==> s in out
    {
      var scope := Trim(scopes[i]);
      if scope == "" || scope in seen {
        continue;
      }
      seen := seen + {scope};
      out := out + [scope];
    }
  }

  ghost predicate Listed(scopes: seq<string>, scope: string) {
    scope != "" && exists i | 0 <= i < |scopes| :: Trim(scopes[i]) == scope
  }

  lemma {:induction false} NormalizedScopesExact(scopes: seq<string>, n: nat)
    requires n <= |scopes|
    ensures Distinct(NormalizedScopes(scopes, n))
    ensures forall s :: s in NormalizedScopes(scopes, n) <==> Listed(scopes[..n], s)
  {
    hide Trim;
    if n > 0 {
      NormalizedScopesExact(scopes, n - 1);
      var before := NormalizedScopes(scopes, n - 1);
      forall s ensures Listed(scopes[..n], s) <==> Listed(scopes[..n - 1], s) || (s != "" && s == Trim(scopes[n - 1])) {
        ListedSnoc(scopes, n, s);
      }
      hide Listed;
    }
  }

  lemma ListedSnoc(scopes: seq<string>, n: nat, s: string)
    requires 0 < n <= |scopes|
    ensures Listed(scopes[..n], s) <==> Listed(scopes[..n - 1], s) || (s != "" && s == Trim(scopes[n - 1]))
  {
    hide Trim;
    var all, before := scopes[..n], scopes[..n - 1];
    if Listed(before, s) {
      var i :| 0 <= i < |before| && Trim(before[i]) == s;
      assert all[i] == before[i];
    }
    if s != "" && s == Trim(scopes[n - 1]) {
      assert all[n - 1] == scopes[n - 1];
    }
    if Listed(all, s) {
      var i :| 0 <= i < |all| && Trim(all[i]) == s;
      if i < n - 1 { assert before[i] == all[i]; }
    }
  }

  /** Every non-blank required scope is among the principal's scopes. */
  ghost predicate HoldsAll(principal: Principal, scopes: seq<string>) {
    forall s | Listed(scopes, s) :: s in principal.scopes
  }

  /** Some non-blank scope of the list is among the principal's scopes, or the list has none. */
  ghost predicate HoldsAny(principal: Principal, scopes: seq<string>) {
    (exists s :: Listed(scopes, s) && s in principal.scopes) || (forall s :: !Listed(scopes, s))
  }

  /** `principalHasAllScopes`. */
  method HasAllScopes(principal: Principal, scopes: seq<string>) returns (ok: bool)
    ensures ok <==> HoldsAll(principal, scopes)
  {
    hide Trim, Listed;
    var normalized := NormalizeScopeList(scopes);
    NormalizedScopesExact(scopes, |scopes|);
    assert scopes[..|scopes|] == scopes;
    for i := 0 to |normalized|
      invariant forall k | 0 <= k < i :: normalized[k] in principal.scopes
    {
      if normalized[i] !in principal.scopes {
        assert normalized[i] in normalized;
        return false;
      }
    }
    return true;
  }

  /** `principalHasAnyScope`. */
  method HasAnyScope(principal: Principal, scopes: seq<string>) returns (ok: bool)
    ensures ok <==> HoldsAny(principal, scopes)
  {
    hide Trim, Listed;
    var normalized := NormalizeScopeList(scopes);
    NormalizedScopesExact(scopes, |scopes|);
    assert scopes[..|scopes|] == scopes;
    if |normalized| == 0 {
      return true;
    }
    assert normalized[0] in normalized;
    for i := 0 to |normalized|
      invariant forall k | 0 <= k < i :: normalized[k] !in principal.scopes
    {
      if normalized[i] in principal.scopes {
        assert normalized[i] in normalized;
        return true;
      }
    }
    return false;
  }

  /** `normalizeAuthPrincipal`, and the rule of `authenticate` that a blank identity is nobody. */
  function Recognized(principal: Option<Principal>): (r: Option<Principal>)
    ensures r.Some? <==> principal.Some? && Trim(principal.value.identity) != ""
    ensures r.Some? ==>
              && r.value.identity == Trim(principal.value.identity) != ""
              && Distinct(r.value.scopes)
              && forall s :: s in r.value.scopes <==> Listed(principal.value.scopes, s)
  {
    if principal.None? then None
    else
      var identity := Trim(principal.value.identity);
      var scopes := principal.value.scopes;
      NormalizedScopesExact(scopes, |scopes|);
      assert scopes[..|scopes|] == scopes;
      if identity == "" then None else Some(Principal(identity, NormalizedScopes(scopes, |scopes|)))
  }
}
