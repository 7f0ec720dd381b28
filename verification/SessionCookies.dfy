/** What the session cookie says after a request, and what is sent on for it. */
module SessionCookies {
  import opened Wrappers
  import opened SecurityCookie
  import opened Exchange
  import opened CookieSplitter
  import opened AuthContext
  import opened SessionMachine
  import opened SessionRequests
  import AuthHandler
  import JwtAuth
  import JwtTokens
  import OpenIdAuth

  /** The cookie a request's own credentials buy: the user the backend names, a reference to the
      stored token, and an expiry one time-to-live away, for a token session capped by the token. */
  ghost predicate Minted(config: Config, request: Request, answers: Answers, cookie: Cookie) {
    var user := answers.authinfo(AuthHandler.GetAdditionalAuthHeader(config, request));
    && user.Some? && cookie.username == Some(user.value.userName)
    && cookie.credentials == Some(Credentials(None, true, None, None))
    && cookie.oidc == None && cookie.saml == None
    && match config.kind
       case OpenId(_, _, _) =>
         cookie.authType == Some("openid") && cookie.expiryTime == Some(answers.now + config.ttl)
       case Jwt(_, _) =>
         && cookie.authType == Some("jwt")
         && cookie.expiryTime == JwtAuth.GetExpirationDate(JwtAuth.GetBearerToken(config.kind, request),
                                                           answers.now + config.ttl, config.claimOf)
  }

  lemma PreparedIsMinted(config: Config, jar: Jar, request: Request, answers: Answers)
    ensures var user := answers.authinfo(AuthHandler.GetAdditionalAuthHeader(config, request));
            user.Some? ==>
              var prepared := AuthHandler.PrepareCredentials(config, request, Open(jar), user.value.userName,
                                                             answers.now);
              prepared.Some? ==> Minted(config, request, answers, prepared.value.cookie)
  {
    hide JwtAuth.GetExpirationDate;
    hide JwtAuth.GetBearerToken;
    hide WriteFirst;
    hide AuthHandler.GetAdditionalAuthHeader;
    hide Validate;
  }

  /** Main result: accepted credentials leave such a cookie, whatever the tenant. */
  lemma CredentialsMint(config: Config, jar: Jar, request: Request, answers: Answers)
    requires CredentialHeaders(config, request, answers).Some?
    ensures var after := MainAfter(AuthHandler.HandleCredentials(config, request, Open(jar), answers).view);
            after.Some? && Minted(config, request, answers, after.value)
  {
    hide AuthHandler.Settle;
    hide AuthHandler.PrepareCredentials;
    hide AuthHandler.NewCookie;
    hide AuthHandler.StoreToken;
    hide AuthHandler.GetAdditionalAuthHeader;
    hide JwtAuth.GetExpirationDate;
    hide JwtAuth.GetBearerToken;
    hide TenantFor;
    hide Remembered;
    var user := answers.authinfo(AuthHandler.GetAdditionalAuthHeader(config, request));
    MintedCookie(config, jar, request, user.value.userName, answers.now);
    PreparedIsMinted(config, jar, request, answers);
    var prepared := AuthHandler.PrepareCredentials(config, request, Open(jar), user.value.userName, answers.now);
    SettleByTenant(config, request, prepared.value.view, prepared.value.cookie, prepared.value.headers, user, answers);
  }

  /** When a session used now expires. */
  function SlidTo(config: Config, jar: Jar, cookie: Cookie, now: Time): Option<Time> {
    if !config.keepalive then cookie.expiryTime
    else if config.kind.OpenId? then Some(now + config.ttl)
    else
      var read := if HasExtra(cookie)
                  then if config.kind.headerName == "authorization" then Content(config, jar) else None
                  else if cookie.credentials.Some? then cookie.credentials.value.authHeaderValue else None;
      JwtAuth.GetExpirationDate(read, now + config.ttl, config.claimOf)
  }

  /** Main result: a session that is used keeps its user and type; with keep-alive it slides to
      one time-to-live from now, a token session no further than the token that is read under
      the configured header; without, its expiry stays. */
  lemma SessionSlides(config: Config, jar: Jar, request: Request, answers: Answers)
    requires SessionHeaders(config, jar, request, answers).Some?
    ensures jar.main.Some?
    ensures var after := MainAfter(AuthHandler.HandleSession(config, request, Open(jar), answers).view);
            && after.Some?
            && after.value == jar.main.value.(expiryTime := after.value.expiryTime, tenant := after.value.tenant,
                              credentials := after.value.credentials)
            && (StoresSession(config, jar, request, answers) ==>
                  after.value.expiryTime == SlidTo(config, jar, jar.main.value, answers.now))
            && (!StoresSession(config, jar, request, answers) ==> after == jar.main)
  {
    hide AuthHandler.Settle;
    hide AuthHandler.Check;
    hide AuthHandler.BuildAuthHeaderFromCookie;
    hide AuthHandler.GetKeepAliveExpiry;
    hide AuthHandler.GetAdditionalAuthHeader;
    hide TenantFor;
    hide SlidTo;
    CheckKeepsCookie(config, jar.main.value, Open(jar), answers);
    SlideIs(config, jar, answers);
    var check := AuthHandler.Check(config, jar.main.value, Open(jar), answers);
    var prepared := AuthHandler.PrepareSession(config, request, check, answers.now);
    SettleByTenant(config, request, prepared.value.view, prepared.value.cookie, prepared.value.headers, None, answers);
  }

  lemma SlideIs(config: Config, jar: Jar, answers: Answers)
    requires jar.main.Some?
    ensures var check := AuthHandler.Check(config, jar.main.value, Open(jar), answers);
            check.valid ==>
              SlidTo(config, jar, jar.main.value, answers.now) ==
              if config.keepalive then AuthHandler.GetKeepAliveExpiry(config, check.cookie, check.view, answers.now)
              else check.cookie.expiryTime
  {
    hide JwtAuth.GetExpirationDate;
    hide OpenIdAuth.Renewal;
    hide StoredValue;
    hide StoreValue;
    var cookie := jar.main.value;
    if config.kind.Jwt? && JwtAuth.IsValidCookie(config, cookie, Open(jar)) {
      JwtTokens.SentForSession(config, cookie, Open(jar));
      assert JwtAuth.GetExpirationDate(Some(""), answers.now + config.ttl, config.claimOf)
          == JwtAuth.GetExpirationDate(None, answers.now + config.ttl, config.claimOf) by {
        EmptyTokenIsNone(answers.now + config.ttl, config.claimOf);
      }
    }
  }

  lemma EmptyTokenIsNone(otherwise: Time, claimOf: string -> Claim)
    ensures JwtAuth.GetExpirationDate(Some(""), otherwise, claimOf)
         == JwtAuth.GetExpirationDate(None, otherwise, claimOf)
  {
  }

  /** Main result: what is asked about, and sent on, for an accepted token session is the stored
      value as `authorization`, or the value in the cookie under the configured name. */
  lemma TokenSessionIsSent(config: Config, jar: Jar, request: Request, answers: Answers)
    requires config.kind.Jwt? && !AuthHandler.RequestIncludesAuthInfo(config, request)
    requires PreparedHeaders(config, jar, request, answers).Some?
    ensures jar.main.Some? && jar.main.value.credentials.Some?
    ensures PreparedHeaders(config, jar, request, answers) ==
            Some(if jar.main.value.credentials.value.authHeaderValueExtra
                 then map["authorization" := OrEmpty(Content(config, jar))]
                 else map[config.kind.headerName := OrEmpty(jar.main.value.credentials.value.authHeaderValue)])
  {
    hide JwtAuth.GetExpirationDate;
    hide JwtAuth.BuildAuthHeaderFromCookie;
    hide StoredValue;
    var cookie, v := jar.main.value, Open(jar);
    JwtTokens.SentForSession(config, cookie, v);
    NothingAdded(config, request);
    var check := AuthHandler.Check(config, cookie, v, answers);
    var prepared := AuthHandler.PrepareSession(config, request, check, answers.now).value;
    SlidingSendsTheSame(config, cookie, prepared.cookie, v, prepared.view);
    assert forall headers: Headers :: headers + map[] == headers;
  }

  lemma NothingAdded(config: Config, request: Request)
    requires !AuthHandler.RequestIncludesAuthInfo(config, request)
    ensures AuthHandler.GetAdditionalAuthHeader(config, request) == map[]
  {
  }

  lemma SlidingSendsTheSame(config: Config, cookie: Cookie, slid: Cookie, v: View, w: View)
    requires config.kind.Jwt? && cookie.credentials.Some? && cookie.credentials == slid.credentials
    requires v.jar.split == w.jar.split && v.states == w.states
    ensures JwtAuth.BuildAuthHeaderFromCookie(config, cookie, v) == JwtAuth.BuildAuthHeaderFromCookie(config, slid, w)
  {
    hide StoredValue;
    SameStatesSameStore(config, v, w);
  }
}
