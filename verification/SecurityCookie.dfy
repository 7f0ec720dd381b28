/** The session cookie and the test it must pass before anyone gets to read it
    (server/session/security_cookie.ts). */
module SecurityCookie {
  import opened Wrappers

  /** Milliseconds since the epoch. */
  type Time = real

  /** `expiryTime` is None where the source computes undefined or NaN: neither is ever
      greater than the current time. */
  datatype Credentials = Credentials(
    authHeaderValue: Option<string>,
    authHeaderValueExtra: bool,
    refreshToken: Option<string>,
    expiryTime: Option<Time>)

  datatype OidcFlow = OidcFlow(state: Option<string>, nextUrl: string, redirectHash: bool)

  datatype SamlFlow = SamlFlow(requestId: Option<string>)

  datatype Cookie = Cookie(
    username: Option<string>,
    credentials: Option<Credentials>,
    authType: Option<string>,
    expiryTime: Option<Time>,
    tenant: Option<string>,
    oidc: Option<OidcFlow>,
    saml: Option<SamlFlow>)

  predicate Validate(cookie: Option<Cookie>, now: Time) {
    match cookie
    case None => false
    case Some(c) =>
      if c.saml.Some? && Truthy(c.saml.value.requestId) then true
      else if c.oidc.Some? then true
      else c.expiryTime.Some? && !(c.expiryTime.value < now)
  }

  predicate TruthyTime(t: Option<Time>) {
    t.Some? && t.value != 0.0
  }

  /** Main result: a cookie can be read while a login is under way, and else exactly until its
      expiry, the moment itself included; a SAML login counts once it has a request id. */
  lemma ReadableIff(cookie: Cookie, now: Time)
    ensures Validate(Some(cookie), now) <==>
            || (exists flow :: cookie.oidc == Some(flow))
            || (exists requestId :: requestId != "" && cookie.saml == Some(SamlFlow(Some(requestId))))
            || (exists expiry :: cookie.expiryTime == Some(expiry) && now <= expiry)
    ensures !Validate(None, now)
  {
    if cookie.saml.Some? && cookie.saml.value.requestId.Some? {
      assert cookie.saml == Some(SamlFlow(Some(cookie.saml.value.requestId.value)));
    }
    if cookie.oidc.Some? {
      assert cookie.oidc == Some(cookie.oidc.value);
    }
    if cookie.expiryTime.Some? {
      assert cookie.expiryTime == Some(cookie.expiryTime.value);
    }
  }
}
