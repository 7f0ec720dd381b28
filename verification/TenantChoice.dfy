/** What the tenant resolver promises to a user who asks for a tenant, prefers some, or does
    neither, and where the asking is looked for. */
module TenantChoice {
  import opened Wrappers
  import opened TenantResolver

  predicate NamesPrivate(account: Account, name: string, policy: Policy) {
    policy.privateEnabled && account.username in account.tenants && name in {"__user__", "private", "Private"}
  }

  predicate NamesGlobal(name: string, policy: Policy) {
    policy.globalEnabled && name in {"", "global", "Global"}
  }

  /** The name stands for a tenant this user can work in. */
  predicate Usable(account: Account, name: string, policy: Policy) {
    name in account.tenants || NamesPrivate(account, name, policy) || NamesGlobal(name, policy)
  }

  /** Neither the built-in tenants nor a tenant of the user's own besides the user name. */
  predicate NothingToOffer(account: Account, policy: Policy) {
    && !policy.globalEnabled && !policy.privateEnabled
    && forall t :: t in account.tenants ==> t == account.username
  }

  lemma NothingLeftIff(account: Account)
    ensures Without(account.tenants, account.username) == [] <==>
            forall t :: t in account.tenants ==> t == account.username
  {
    var others := Without(account.tenants, account.username);
    if others != [] {
      assert others[0] in others;
    }
    forall t | t in account.tenants && t != account.username
      ensures others != []
    {
      assert t in others;
    }
  }

  /** Main result: whatever is preferred, a user who asks for an own tenant gets it, and who
      asks for a built-in one by any of its names gets that, while it is switched on. An own
      tenant comes before a built-in one of the same name. */
  lemma AskedIsGiven(account: Account, asked: string, policy: Policy)
    requires policy.multitenancyEnabled && !NothingToOffer(account, policy)
    requires Usable(account, asked, policy)
    ensures Resolution(account, Some(asked), policy) ==
            Some(if asked in account.tenants then asked
                 else if NamesPrivate(account, asked, policy) then "__user__"
                 else "")
  {
    hide ResolvePreferred;
    hide Fallback;
    NothingLeftIff(account);
  }

  /** With nothing usable asked for, what is asked makes no difference. */
  lemma UnusableIsIgnored(account: Account, asked: string, policy: Policy)
    requires !Usable(account, asked, policy)
    ensures Resolution(account, Some(asked), policy) == Resolution(account, None, policy)
  {
    hide ResolvePreferred;
    hide Fallback;
  }

  /** Preference `k` is the first one that stands for a tenant this user can work in. */
  ghost predicate FirstUsable(account: Account, policy: Policy, k: nat) {
    && k < |policy.preferred|
    && Usable(account, policy.lower(policy.preferred[k]), policy)
    && forall j :: 0 <= j < k ==> !Usable(account, policy.lower(policy.preferred[j]), policy)
  }

  /** Main result: who asks for nothing usable gets the first preference that is, a built-in
      tenant coming before an own one of the same name. */
  lemma FirstPreferenceIsGiven(account: Account, asked: Option<string>, policy: Policy, k: nat)
    requires policy.multitenancyEnabled && !NothingToOffer(account, policy)
    requires asked.Some? ==> !Usable(account, asked.value, policy)
    requires FirstUsable(account, policy, k)
    ensures var name := policy.lower(policy.preferred[k]);
            Resolution(account, asked, policy) ==
            Some(if NamesGlobal(name, policy) then ""
                 else if NamesPrivate(account, name, policy) then "__user__"
                 else name)
  {
    hide ResolvePreferred;
    hide Fallback;
    NothingLeftIff(account);
    assert policy.preferred[0..] == policy.preferred;
    PreferredFrom(account, policy, 0, k);
  }

  lemma {:induction false} PreferredFrom(account: Account, policy: Policy, i: nat, k: nat)
    requires i <= k && FirstUsable(account, policy, k)
    ensures ResolvePreferred(account, policy.preferred[i..], policy)
         == ResolvePreference(account, policy.lower(policy.preferred[k]), policy)
    decreases k - i
  {
    var rest := policy.preferred[i..];
    assert rest[0] == policy.preferred[i] && rest[1..] == policy.preferred[i + 1..];
    if i == k {
    } else {
      PreferredFrom(account, policy, i + 1, k);
    }
  }

  lemma {:induction false} NoPreference(account: Account, preferred: seq<string>, policy: Policy)
    requires forall p :: p in preferred ==> !Usable(account, policy.lower(p), policy)
    ensures ResolvePreferred(account, preferred, policy) == None
  {
    if preferred == [] {
    } else {
      assert preferred[0] in preferred;
      NoPreference(account, preferred[1..], policy);
    }
  }

  /** Main result: who neither asks for nor prefers anything usable gets the global tenant, else
      the private one, else the first own tenant, passing over `global_tenant` as long as there
      is another. */
  lemma FallbackIsGiven(account: Account, asked: Option<string>, policy: Policy)
    requires ValidAccount(account) && policy.multitenancyEnabled && !NothingToOffer(account, policy)
    requires asked.Some? ==> !Usable(account, asked.value, policy)
    requires forall p :: p in policy.preferred ==> !Usable(account, policy.lower(p), policy)
    ensures policy.globalEnabled ==> Resolution(account, asked, policy) == Some("")
    ensures !policy.globalEnabled && policy.privateEnabled ==> Resolution(account, asked, policy) == Some("__user__")
    ensures !policy.globalEnabled && !policy.privateEnabled ==>
              exists i :: 0 <= i < |account.tenants|
                          && Resolution(account, asked, policy) == Some(account.tenants[i])
                          && FirstOwn(account, i)
  {
    hide Fallback;
    NothingLeftIff(account);
    NoPreference(account, policy.preferred, policy);
    FallbackIs(account, policy);
  }

  /** Tenant `i` is not the user name, and everything before it is that or `global_tenant`; it is
      `global_tenant` itself only when there is nothing else. */
  predicate FirstOwn(account: Account, i: nat)
    requires i < |account.tenants|
  {
    && account.tenants[i] != account.username
    && (forall j :: 0 <= j < i ==> account.tenants[j] == account.username || account.tenants[j] == "global_tenant")
    && (account.tenants[i] == "global_tenant" ==>
          forall t :: t in account.tenants ==> t == account.username || t == "global_tenant")
  }

  lemma FallbackIs(account: Account, policy: Policy)
    requires ValidAccount(account) && !NothingToOffer(account, policy)
    ensures policy.globalEnabled ==> Fallback(account, policy) == Some("")
    ensures !policy.globalEnabled && policy.privateEnabled ==> Fallback(account, policy) == Some("__user__")
    ensures !policy.globalEnabled && !policy.privateEnabled ==>
              exists i :: 0 <= i < |account.tenants| && Fallback(account, policy) == Some(account.tenants[i])
                          && FirstOwn(account, i)
  {
    if !policy.globalEnabled && !policy.privateEnabled {
      NothingLeftIff(account);
      var others := Without(account.tenants, account.username);
      WithoutKeepsDistinct(account.tenants, account.username);
      if |others| > 1 && GLOBAL_TENANT_NAME in others {
        var rest := Without(others, GLOBAL_TENANT_NAME);
        assert others[0] in others && others[1] in others && others[0] != others[1];
        assert rest != [] by {
          assert others[0] in rest || others[1] in rest;
        }
        var k := FirstLeft(others, GLOBAL_TENANT_NAME);
        var i := PlaceOf(account.tenants, account.username, k);
        assert FirstOwn(account, i);
      } else {
        var i := PlaceOf(account.tenants, account.username, 0);
        assert account.tenants[i] == others[0];
        if others[0] == GLOBAL_TENANT_NAME {
          assert others[0] in others;
          assert |others| == 1;
          forall t | t in account.tenants
            ensures t == account.username || t == "global_tenant"
          {
            assert t != account.username ==> t in others;
          }
        }
        assert FirstOwn(account, i);
      }
    }
  }

  /** Where the first key left after a deletion stood. */
  lemma {:induction false} FirstLeft(tenants: seq<string>, name: string) returns (k: nat)
    requires Without(tenants, name) != []
    ensures k < |tenants| && tenants[k] == Without(tenants, name)[0] != name
    ensures forall j :: 0 <= j < k ==> tenants[j] == name
  {
    if tenants[0] == name {
      var l := FirstLeft(tenants[1..], name);
      k := l + 1;
    } else {
      k := 0;
    }
  }

  /** Where key `k` stood before a deletion: only deleted keys and the keys before it precede it. */
  lemma {:induction false} PlaceOf(tenants: seq<string>, name: string, k: nat) returns (i: nat)
    requires k < |Without(tenants, name)|
    ensures i < |tenants| && tenants[i] == Without(tenants, name)[k] != name
    ensures forall j :: 0 <= j < i ==> tenants[j] == name || tenants[j] in Without(tenants, name)[..k]
  {
    if tenants[0] == name {
      var l := PlaceOf(tenants[1..], name, k);
      i := l + 1;
    } else if k == 0 {
      i := 0;
    } else {
      var rest := Without(tenants[1..], name);
      assert Without(tenants, name) == [tenants[0]] + rest;
      var l := PlaceOf(tenants[1..], name, k - 1);
      assert Without(tenants, name)[..k] == [tenants[0]] + rest[..k - 1];
      i := l + 1;
    }
  }

  // ---- where the asking is looked for --------------------------------------------------

  /** The places that may name a tenant, in the order in which they count. */
  function Places(query: map<string, string>, headers: map<string, string>): seq<Option<string>> {
    [Lookup(query, "securityTenant_"), Lookup(query, "securitytenant"), Lookup(query, "security_tenant"),
     Lookup(headers, "securitytenant"), Lookup(headers, "securityTenant_")]
  }

  /** Main result: the first place that names a tenant wins over all later ones, over the cookie
      and over the default; with none, the cookie wins over the default, which counts only
      while multitenancy is on. */
  lemma FirstPlaceWins(query: map<string, string>, headers: map<string, string>, cookieTenant: Option<string>,
                       defaultTenant: Option<string>, multitenancyEnabled: bool)
    ensures var places := Places(query, headers);
            var requested := RequestedTenant(query, headers, cookieTenant, defaultTenant, multitenancyEnabled);
            && (forall k :: 0 <= k < 5 && Truthy(places[k]) && (forall j :: 0 <= j < k ==> !Truthy(places[j])) ==>
                              requested == places[k])
            && ((forall k :: 0 <= k < 5 ==> !Truthy(places[k])) ==>
                  requested == if cookieTenant.Some? then cookieTenant
                  else if multitenancyEnabled && Truthy(defaultTenant) then defaultTenant
                  else None)
  {
    var places := Places(query, headers);
    assert places[0] == Lookup(query, "securityTenant_") && places[1] == Lookup(query, "securitytenant");
    assert places[2] == Lookup(query, "security_tenant") && places[3] == Lookup(headers, "securitytenant");
    assert places[4] == Lookup(headers, "securityTenant_");
  }
}
