/** `IsAuthenticatedOrPublic`: a path under one of the public prefixes is
  * open to anyone, every other path needs an authenticated user. */
module Permissions {
  import opened Common

  /** `PUBLIC_ENDPOINTS`, matched as plain string prefixes. */
  const PUBLIC_ENDPOINTS: seq<string> := ["/api/auth/login", "/api/auth/refresh", "/api/healthcheck", "/api/schema/", "/api/docs/"]

  /** The loop over the prefixes with its early return. */
  function AnyPrefix(path: string, prefixes: seq<string>): (r: bool)
    ensures r <==> exists k :: 0 <= k < |prefixes| && StartsWith(path, prefixes[k])
  {
    if prefixes == [] then false
    else if StartsWith(path, prefixes[0]) then true
    else
      assert forall k :: 1 <= k < |prefixes| ==> prefixes[k] == prefixes[1..][k - 1];
      AnyPrefix(path, prefixes[1..])
  }

  /** `has_permission`: a public path, or an authenticated user. */
  function HasPermission(path: string, authenticated: bool): (r: bool)
    ensures r <==> authenticated || exists p :: p in PUBLIC_ENDPOINTS && StartsWith(path, p)
  {
    AnyPrefix(path, PUBLIC_ENDPOINTS) || authenticated
  }

  /** Every prefix of `ps` is also in `qs`, so a match in `ps` is a match in `qs`. */
  lemma {:induction false} Covered(path: string, ps: seq<string>, qs: seq<string>)
    requires forall p :: p in ps ==> p in qs
    ensures AnyPrefix(path, ps) ==> AnyPrefix(path, qs)
  {
    if AnyPrefix(path, ps) {
      var k :| 0 <= k < |ps| && StartsWith(path, ps[k]);
      assert ps[k] in qs;
    }
  }

  /** The answer does not depend on the order of the prefix list. */
  lemma {:induction false} OrderIrrelevant(path: string, ps: seq<string>, qs: seq<string>)
    requires multiset(ps) == multiset(qs)
    ensures AnyPrefix(path, ps) == AnyPrefix(path, qs)
  {
    assert forall p :: p in ps <==> p in multiset(ps);
    assert forall p :: p in qs <==> p in multiset(qs);
    Covered(path, ps, qs);
    Covered(path, qs, ps);
  }

  /** The match is on characters, not path segments: a longer path that
    * merely begins with a public one is open too. */
  lemma {:induction false} PrefixIsLoose()
    ensures HasPermission("/api/auth/login-x", false)
    ensures !HasPermission("/api", false)
  {
    assert StartsWith("/api/auth/login-x", PUBLIC_ENDPOINTS[0]);
  }
}
