/** Which tenant a request works in (server/multitenancy/tenant_resolver.ts). */
module TenantResolver {
  import opened Wrappers

  const GLOBAL_TENANT_SYMBOL := ""
  const PRIVATE_TENANT_SYMBOL := "__user__"
  const GLOBAL_TENANT_NAME := "global_tenant"
  const PRIVATE_TENANTS := [PRIVATE_TENANT_SYMBOL, "private", "Private"]
  const GLOBAL_TENANTS := ["global", GLOBAL_TENANT_SYMBOL, "Global"]

  /** The user's tenants are the keys of a JavaScript object in enumeration order;
      `resolve` never looks at the values. */
  datatype Account = Account(username: string, tenants: seq<string>)

  /** `lower` is `String.prototype.toLowerCase`. */
  datatype Policy = Policy(
    preferred: seq<string>,
    globalEnabled: bool,
    multitenancyEnabled: bool,
    privateEnabled: bool,
    lower: string -> string)

  ghost predicate Distinct(names: seq<string>) {
    forall i, j :: 0 <= i < j < |names| ==> names[i] != names[j]
  }

  /** An object has each key once. */
  ghost predicate ValidAccount(account: Account) {
    Distinct(account.tenants)
  }

  /** `delete tenants[name]` */
  function Without(tenants: seq<string>, name: string): (rest: seq<string>)
    ensures forall t :: t in rest <==> t in tenants && t != name
    ensures |rest| <= |tenants|
  {
    if tenants == [] then []
    else if tenants[0] == name then Without(tenants[1..], name)
    else [tenants[0]] + Without(tenants[1..], name)
  }

  // ---- the specification --------------------------------------------------

  function ResolveRequested(account: Account, requested: string, policy: Policy): Option<string> {
    if requested in account.tenants then Some(requested)
    else if policy.privateEnabled && account.username in account.tenants && requested in PRIVATE_TENANTS then
      Some(PRIVATE_TENANT_SYMBOL)
    else if policy.globalEnabled && requested in GLOBAL_TENANTS then Some(GLOBAL_TENANT_SYMBOL)
    else None
  }

  function ResolvePreference(account: Account, tenant: string, policy: Policy): Option<string> {
    if policy.globalEnabled && tenant in GLOBAL_TENANTS then Some(GLOBAL_TENANT_SYMBOL)
    else if policy.privateEnabled && tenant in PRIVATE_TENANTS && account.username in account.tenants then
      Some(PRIVATE_TENANT_SYMBOL)
    else if tenant in account.tenants then Some(tenant)
    else None
  }

  function ResolvePreferred(account: Account, preferred: seq<string>, policy: Policy): Option<string> {
    if preferred == [] then None
    else
      var first := ResolvePreference(account, policy.lower(preferred[0]), policy);
      if first.Some? then first else ResolvePreferred(account, preferred[1..], policy)
  }

  function Fallback(account: Account, policy: Policy): Option<string> {
    if policy.globalEnabled then Some(GLOBAL_TENANT_SYMBOL)
    else if policy.privateEnabled then Some(PRIVATE_TENANT_SYMBOL)
    else
      var others := Without(account.tenants, account.username);
      var candidates :=
        if |others| > 1 && GLOBAL_TENANT_NAME in others then Without(others, GLOBAL_TENANT_NAME) else others;
      if candidates == [] then None else Some(candidates[0])
  }

  function Resolution(account: Account, requested: Option<string>, policy: Policy): Option<string> {
    if !policy.globalEnabled && !policy.privateEnabled && Without(account.tenants, account.username) == [] then
      None
    else if !policy.multitenancyEnabled then
      if policy.globalEnabled then Some(GLOBAL_TENANT_SYMBOL) else None
    else
      var asked := if requested.Some? then ResolveRequested(account, requested.value, policy) else None;
      var liked := ResolvePreferred(account, policy.preferred, policy);
      if asked.Some? then asked else if liked.Some? then liked else Fallback(account, policy)
  }

  method Resolve(account: Account, requestedTenant: Option<string>, policy: Policy) returns (tenant: Option<string>)
    ensures tenant == Resolution(account, requestedTenant, policy)
  {
    var availableTenantsClone := Without(account.tenants, account.username);
    if !policy.globalEnabled && !policy.privateEnabled && availableTenantsClone == [] {
      return None;
    }
    if !policy.multitenancyEnabled {
      if !policy.globalEnabled {
        return None;
      }
      return Some(GLOBAL_TENANT_SYMBOL);
    }
    if requestedTenant.Some? {
      var requested := requestedTenant.value;
      if requested in account.tenants {
        return Some(requested);
      }
      if policy.privateEnabled && account.username in account.tenants && requested in PRIVATE_TENANTS {
        return Some(PRIVATE_TENANT_SYMBOL);
      }
      if policy.globalEnabled && requested in GLOBAL_TENANTS {
        return Some(GLOBAL_TENANT_SYMBOL);
      }
    }
    assert policy.preferred[0..] == policy.preferred;
    for i := 0 to |policy.preferred|
      invariant ResolvePreferred(account, policy.preferred, policy)
             == ResolvePreferred(account, policy.preferred[i..], policy)
    {
      var preferred := policy.preferred[i..];
      assert preferred[1..] == policy.preferred[i + 1..];
      var name := policy.lower(policy.preferred[i]);
      if policy.globalEnabled && name in GLOBAL_TENANTS {
        return Some(GLOBAL_TENANT_SYMBOL);
      }
      if policy.privateEnabled && name in PRIVATE_TENANTS && account.username in account.tenants {
        return Some(PRIVATE_TENANT_SYMBOL);
      }
      if name in account.tenants {
        return Some(name);
      }
    }
    if policy.globalEnabled {
      return Some(GLOBAL_TENANT_SYMBOL);
    }
    if policy.privateEnabled {
      return Some(PRIVATE_TENANT_SYMBOL);
    }
    if |availableTenantsClone| > 1 && GLOBAL_TENANT_NAME in availableTenantsClone {
      availableTenantsClone := Without(availableTenantsClone, GLOBAL_TENANT_NAME);
    }
    tenant := if availableTenantsClone == [] then None else Some(availableTenantsClone[0]);
  }

  // ---- where the requested tenant comes from -------------------------------

  /** True when nothing in the URL or the headers names a tenant. */
  predicate NamesNoTenant(query: map<string, string>, headers: map<string, string>) {
    && !Truthy(Lookup(query, "securityTenant_"))
    && !Truthy(Lookup(query, "securitytenant"))
    && !Truthy(Lookup(query, "security_tenant"))
    && !Truthy(Lookup(headers, "securitytenant"))
    && !Truthy(Lookup(headers, "securityTenant_"))
  }

  function RequestedTenant(
    query: map<string, string>, headers: map<string, string>,
    cookieTenant: Option<string>, defaultTenant: Option<string>, multitenancyEnabled: bool): Option<string>
  {
    if Truthy(Lookup(query, "securityTenant_")) then Lookup(query, "securityTenant_")
    else if Truthy(Lookup(query, "securitytenant")) then Lookup(query, "securitytenant")
    else if Truthy(Lookup(query, "security_tenant")) then Lookup(query, "security_tenant")
    else if Truthy(Lookup(headers, "securitytenant")) then Lookup(headers, "securitytenant")
    else if Truthy(Lookup(headers, "securityTenant_")) then Lookup(headers, "securityTenant_")
    else if cookieTenant.Some? then cookieTenant
    else if Truthy(defaultTenant) && multitenancyEnabled then defaultTenant
    else None
  }

  // ---- laws -----------------------------------------------------------------

  lemma {:induction false} PreferredAdmissible(account: Account, preferred: seq<string>, policy: Policy)
    ensures var t := ResolvePreferred(account, preferred, policy);
            t.Some? ==> Admissible(account, t.value, policy)
  {
    if preferred == [] {
    } else {
      PreferredAdmissible(account, preferred[1..], policy);
    }
  }

  /** A tenant the user may end up in. */
  predicate Admissible(account: Account, tenant: string, policy: Policy) {
    || tenant in account.tenants
    || (tenant == GLOBAL_TENANT_SYMBOL && policy.globalEnabled)
    || (tenant == PRIVATE_TENANT_SYMBOL && policy.privateEnabled)
  }

  lemma ResolutionUndefinedIff(account: Account, requested: Option<string>, policy: Policy)
    requires ValidAccount(account)
    ensures Resolution(account, requested, policy) == None <==>
            || (!policy.multitenancyEnabled && !policy.globalEnabled)
            || (!policy.globalEnabled && !policy.privateEnabled
                && forall t :: t in account.tenants ==> t == account.username)
  {
    var others := Without(account.tenants, account.username);
    if others != [] {
      assert others[0] in others;
    }
    WithoutKeepsDistinct(account.tenants, account.username);
    if |others| > 1 {
      assert others[0] != others[1];
      assert others[0] in others && others[1] in others;
      var rest := Without(others, GLOBAL_TENANT_NAME);
      assert others[0] in rest || others[1] in rest;
    }
  }

  lemma {:induction false} WithoutKeepsDistinct(tenants: seq<string>, name: string)
    requires Distinct(tenants)
    ensures Distinct(Without(tenants, name))
  {
    if tenants == [] {
    } else {
      assert forall k :: 0 <= k < |tenants[1..]| ==> tenants[1..][k] == tenants[k + 1];
      WithoutKeepsDistinct(tenants[1..], name);
      var rest := Without(tenants[1..], name);
      assert tenants[0] !in tenants[1..];
      forall k | 0 <= k < |rest|
        ensures rest[k] != tenants[0]
      {
        assert rest[k] in rest;
      }
    }
  }

  lemma ResolutionAdmissible(account: Account, requested: Option<string>, policy: Policy)
    ensures var t := Resolution(account, requested, policy);
            t.Some? ==> Admissible(account, t.value, policy)
  {
    PreferredAdmissible(account, policy.preferred, policy);
    var others := Without(account.tenants, account.username);
    forall name, i | 0 <= i < |Without(others, name)|
      ensures Without(others, name)[i] in account.tenants
    {
      assert Without(others, name)[i] in Without(others, name);
    }
    assert forall i :: 0 <= i < |others| ==> others[i] in others;
  }

  /** With both built-in tenants switched off, `global_tenant` is picked unasked only when
      the user has nothing else. */
  lemma FallbackAvoidsGlobalTenant(account: Account, requested: Option<string>, policy: Policy)
    requires ValidAccount(account)
    requires policy.multitenancyEnabled && !policy.globalEnabled && !policy.privateEnabled
    requires requested != Some(GLOBAL_TENANT_NAME)
    requires forall p :: p in policy.preferred ==> policy.lower(p) != GLOBAL_TENANT_NAME
    ensures Resolution(account, requested, policy) == Some(GLOBAL_TENANT_NAME) ==>
              Without(account.tenants, account.username) == [GLOBAL_TENANT_NAME]
  {
    PreferredIsLowered(account, policy.preferred, policy);
    var others := Without(account.tenants, account.username);
    var rest := Without(others, GLOBAL_TENANT_NAME);
    assert rest != [] ==> rest[0] in rest;
    assert others != [] ==> others[0] in others;
  }

  lemma {:induction false} PreferredIsLowered(account: Account, preferred: seq<string>, policy: Policy)
    requires !policy.globalEnabled && !policy.privateEnabled
    ensures var t := ResolvePreferred(account, preferred, policy);
            t.Some? ==> exists p :: p in preferred && policy.lower(p) == t.value
  {
    if preferred == [] {
    } else {
      PreferredIsLowered(account, preferred[1..], policy);
      assert preferred[0] in preferred;
    }
  }

  /** Feeding a resolved tenant back as the requested one selects it again. */
  lemma ResolutionIdempotent(account: Account, requested: Option<string>, policy: Policy)
    ensures var t := Resolution(account, requested, policy);
            t.Some? ==> Resolution(account, t, policy) == t
  {
    ResolutionAdmissible(account, requested, policy);
    assert PRIVATE_TENANTS[0] == PRIVATE_TENANT_SYMBOL && GLOBAL_TENANTS[1] == GLOBAL_TENANT_SYMBOL;
    assert PRIVATE_TENANT_SYMBOL !in GLOBAL_TENANTS && GLOBAL_TENANT_SYMBOL !in PRIVATE_TENANTS;
    PreferredPrivateNeedsAccount(account, policy.preferred, policy);
  }

  /** Preferences name the private tenant only for a user who has one, or when a real tenant
      carries that name. */
  lemma {:induction false} PreferredPrivateNeedsAccount(account: Account, preferred: seq<string>, policy: Policy)
    ensures ResolvePreferred(account, preferred, policy) == Some(PRIVATE_TENANT_SYMBOL) ==>
              PRIVATE_TENANT_SYMBOL in account.tenants || (policy.privateEnabled && account.username in account.tenants)
  {
    if preferred == [] {
    } else {
      PreferredPrivateNeedsAccount(account, preferred[1..], policy);
    }
  }

  /** Once selected and remembered in the cookie, a tenant stays selected for requests that
      name none, whatever the backend's default tenant becomes. */
  lemma SelectionIsSticky(
    account: Account, policy: Policy, requested: Option<string>, t: string,
    query: map<string, string>, headers: map<string, string>, defaultTenant: Option<string>)
    requires Resolution(account, requested, policy) == Some(t)
    requires NamesNoTenant(query, headers)
    ensures var again := RequestedTenant(query, headers, Some(t), defaultTenant, policy.multitenancyEnabled);
            Resolution(account, again, policy) == Some(t)
  {
    ResolutionIdempotent(account, requested, policy);
  }
}
