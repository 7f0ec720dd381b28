/** One request behind the authentication handler: whom it is let in as, what it is sent on
    with, and what it leaves in the session cookie. */
module SessionRequests {
  import opened Wrappers
  import opened SecurityCookie
  import opened Exchange
  import opened CookieSplitter
  import opened AuthContext
  import opened SessionMachine
  import AuthHandler
  import JwtAuth
  import OpenIdAuth
  import TenantResolver

  /** The tenant header the backend receives for a selected tenant. */
  function TenantHeader(config: Config, tenant: string): string {
    if config.multitenancy.aggregationView then TenantResolver.GLOBAL_TENANT_SYMBOL else tenant
  }

  function TenantOf(cookie: Option<Cookie>): Option<string> {
    if cookie.Some? then cookie.value.tenant else None
  }

  /** The tenant in the session cookie a request can read: none once the cookie has expired. */
  function Remembered(jar: Jar, now: Time): Option<string> {
    TenantOf(Open(jar).Session(now))
  }

  function CredentialHeaders(config: Config, request: Request, answers: Answers): Option<Headers> {
    var headers := AuthHandler.GetAdditionalAuthHeader(config, request);
    var user := answers.authinfo(headers);
    if user.Some? && AuthHandler.NewCookie(config, request, user.value.userName, answers.now).Some? then Some(headers)
    else None
  }

  /** The headers an accepted session is asked about, if its cookie can be prepared. */
  function PreparedHeaders(config: Config, jar: Jar, request: Request, answers: Answers): Option<Headers> {
    var cookie := Open(jar).Session(answers.now);
    if cookie.None? then None
    else
      var check := AuthHandler.Check(config, cookie.value, Open(jar), answers);
      if !check.valid then None
      else
        var prepared := AuthHandler.PrepareSession(config, request, check, answers.now);
        if prepared.Some? then Some(prepared.value.headers) else None
  }

  function SessionHeaders(config: Config, jar: Jar, request: Request, answers: Answers): Option<Headers> {
    var headers := PreparedHeaders(config, jar, request, answers);
    if headers.Some? && answers.authinfo(headers.value).Some? then headers else None
  }

  /** The headers a request works with once its credentials or its session are accepted and
      the backend knows the user. */
  function HeadersInUse(config: Config, jar: Jar, request: Request, answers: Answers): Option<Headers> {
    if AuthHandler.AuthNotRequired(config, request) then None
    else if AuthHandler.RequestIncludesAuthInfo(config, request) then CredentialHeaders(config, request, answers)
    else SessionHeaders(config, jar, request, answers)
  }

  /** The tenant a request working with `headers` resolves to when its cookie remembers this one;
      None when the backend does not answer or no tenant is available. */
  function TenantFor(config: Config, request: Request, remembered: Option<string>, headers: Headers,
                     answers: Answers): Option<string> {
    var user, info := answers.authinfo(headers), answers.dashboardsinfo(headers);
    if user.None? || info.None? then None
    else AuthHandler.SelectTenant(config, request, remembered, user.value, info.value)
  }

  /** What is sent on once a tenant has been chosen. */
  function SentHeaders(config: Config, headers: Headers, tenant: Option<string>): Headers {
    if config.multitenancy.enabled && tenant.Some?
    then headers + map["securitytenant" := TenantHeader(config, tenant.value)] else headers
  }

  /** The shared part of the handler by the tenant it resolves. */
  lemma SettleByTenant(config: Config, request: Request, v: View, cookie: Cookie, headers: Headers,
                       authInfo: Option<AuthInfo>, answers: Answers)
    requires authInfo.Some? ==> authInfo == answers.authinfo(headers)
    ensures var r := AuthHandler.Settle(config, request, v, cookie, headers, authInfo, answers);
            var tenant := TenantFor(config, request, cookie.tenant, headers, answers);
            if !config.multitenancy.enabled then r == AuthHandler.Finish(v, headers, None, authInfo, answers)
            else if answers.authinfo(headers).None? then
              !r.outcome.Authenticated? && !r.outcome.PassedThrough? && (r.view == v || r.view == v.Clear())
            else if tenant.None? then !r.outcome.Authenticated? && !r.outcome.PassedThrough? && r.view == v
            else
              r == AuthHandler.Finish(if tenant == cookie.tenant then v else v.Set(cookie.(tenant := tenant)),
                                      SentHeaders(config, headers, tenant), tenant, authInfo, answers)
  {
    hide AuthHandler.SelectTenant;
    hide AuthHandler.Finish;
  }

  /** A minted cookie carries the tenant of the one the request could read. */
  lemma MintedCookie(config: Config, jar: Jar, request: Request, userName: string, now: Time)
    ensures var v := Open(jar);
            var prepared := AuthHandler.PrepareCredentials(config, request, v, userName, now);
            && AuthHandler.StoreToken(config, request, v).mainWrite.Untouched?
            && AuthHandler.StoreToken(config, request, v).jar == jar
            && (prepared.Some? <==> AuthHandler.NewCookie(config, request, userName, now).Some?)
            && (prepared.Some? ==>
                  && prepared.value.cookie.tenant == Remembered(jar, now)
                  && prepared.value.cookie.credentials == Some(Credentials(None, true, None, None))
                  && MainAfter(prepared.value.view) == Some(prepared.value.cookie)
                  && prepared.value.headers == AuthHandler.GetAdditionalAuthHeader(config, request))
  {
    hide JwtAuth.GetExpirationDate;
    hide JwtAuth.GetBearerToken;
    hide WriteFirst;
    hide AuthHandler.GetAdditionalAuthHeader;
  }


  // ---- who is let in ---------------------------------------------------------------

  /** The credentials or the session are accepted, a tenant is available where tenants are used,
      and a session's user is still known under the headers sent on. */
  predicate LetIn(config: Config, jar: Jar, request: Request, answers: Answers) {
    var headers := HeadersInUse(config, jar, request, answers);
    headers.Some? &&
    var tenant := TenantFor(config, request, Remembered(jar, answers.now), headers.value, answers);
    && (config.multitenancy.enabled ==> tenant.Some?)
    && (AuthHandler.RequestIncludesAuthInfo(config, request)
        || answers.authinfo(SentHeaders(config, headers.value, tenant)).Some?)
  }

  /** The answer to a request that is let in. */
  function Entry(config: Config, jar: Jar, request: Request, answers: Answers): AuthHandler.Outcome
    requires LetIn(config, jar, request, answers)
  {
    var headers := HeadersInUse(config, jar, request, answers).value;
    var tenant := TenantFor(config, request, Remembered(jar, answers.now), headers, answers);
    var sent := SentHeaders(config, headers, tenant);
    var user := answers.authinfo(if AuthHandler.RequestIncludesAuthInfo(config, request) then headers else sent);
    AuthHandler.Authenticated(sent, if config.multitenancy.enabled then tenant else None, user.value)
  }

  ghost predicate AnswersAsSaid(config: Config, jar: Jar, request: Request, answers: Answers,
                                outcome: AuthHandler.Outcome) {
    if LetIn(config, jar, request, answers) then outcome == Entry(config, jar, request, answers)
    else !outcome.Authenticated?
  }

  lemma CredentialsLetIn(config: Config, jar: Jar, request: Request, answers: Answers)
    requires !AuthHandler.AuthNotRequired(config, request) && AuthHandler.RequestIncludesAuthInfo(config, request)
    ensures AnswersAsSaid(config, jar, request, answers,
                          AuthHandler.HandleCredentials(config, request, Open(jar), answers).outcome)
  {
    hide AuthHandler.Settle;
    hide AuthHandler.PrepareCredentials;
    hide AuthHandler.NewCookie;
    hide AuthHandler.StoreToken;
    hide AuthHandler.GetAdditionalAuthHeader;
    hide AuthHandler.RequestIncludesAuthInfo;
    hide AuthHandler.AuthNotRequired;
    hide TenantFor;
    hide SessionHeaders;
    hide Remembered;
    var user := answers.authinfo(AuthHandler.GetAdditionalAuthHeader(config, request));
    if user.Some? {
      MintedCookie(config, jar, request, user.value.userName, answers.now);
      var prepared := AuthHandler.PrepareCredentials(config, request, Open(jar), user.value.userName, answers.now);
      if prepared.Some? {
        SettleByTenant(config, request, prepared.value.view, prepared.value.cookie, prepared.value.headers, user,
                       answers);
      }
    }
  }

  lemma SessionLetIn(config: Config, jar: Jar, request: Request, answers: Answers)
    requires !AuthHandler.AuthNotRequired(config, request) && !AuthHandler.RequestIncludesAuthInfo(config, request)
    ensures AnswersAsSaid(config, jar, request, answers,
                          AuthHandler.HandleSession(config, request, Open(jar), answers).outcome)
  {
    hide AuthHandler.Settle;
    hide AuthHandler.Check;
    hide AuthHandler.BuildAuthHeaderFromCookie;
    hide AuthHandler.GetKeepAliveExpiry;
    hide AuthHandler.GetAdditionalAuthHeader;
    hide AuthHandler.RequestIncludesAuthInfo;
    hide AuthHandler.AuthNotRequired;
    hide TenantFor;
    hide CredentialHeaders;
    if Open(jar).Session(answers.now).Some? {
      CheckKeepsCookie(config, jar.main.value, Open(jar), answers);
      var check := AuthHandler.Check(config, jar.main.value, Open(jar), answers);
      if check.valid {
        var prepared := AuthHandler.PrepareSession(config, request, check, answers.now);
        if prepared.Some? {
          SettleByTenant(config, request, prepared.value.view, prepared.value.cookie, prepared.value.headers, None,
                         answers);
        }
      }
    }
  }

  /** Validation changes no more of the cookie than its credentials, and writes the split cookies only. */
  lemma CheckKeepsCookie(config: Config, cookie: Cookie, v: View, answers: Answers)
    ensures var check := AuthHandler.Check(config, cookie, v, answers);
            && check.view.jar == v.jar && check.view.mainWrite == v.mainWrite
            && check.cookie.(credentials := cookie.credentials) == cookie
            && (config.kind.Jwt? ==> check.cookie == cookie)
  {
    hide OpenIdAuth.Renewal;
  }

  /** Main result: a request is authenticated if and only if it is let in as said, and then
      with exactly these headers, tenant and user. */
  lemma AuthenticatedIff(config: Config, jar: Jar, request: Request, answers: Answers)
    ensures AnswersAsSaid(config, jar, request, answers,
                          AuthHandler.Handle(config, request, Open(jar), answers).outcome)
  {
    hide AuthHandler.HandleCredentials;
    hide AuthHandler.HandleSession;
    if AuthHandler.AuthNotRequired(config, request) {
    } else if AuthHandler.RequestIncludesAuthInfo(config, request) {
      CredentialsLetIn(config, jar, request, answers);
    } else {
      SessionLetIn(config, jar, request, answers);
    }
  }

  // ---- the credentials in the session cookie ------------------------------------------

  /** The cookie carries a session, not merely a login under way. */
  predicate HasCredentials(main: Option<Cookie>) {
    main.Some? && main.value.credentials.Some?
  }

  /** The session cookie validates and the authentication type accepts it, if need be after
      renewing its token. */
  predicate SessionAccepted(config: Config, jar: Jar, answers: Answers) {
    var cookie := Open(jar).Session(answers.now);
    cookie.Some? && AuthHandler.Check(config, cookie.value, Open(jar), answers).valid
  }

  /** The handler stores an accepted session's cookie: to slide its expiry, or to remember a
      newly resolved tenant. */
  predicate StoresSession(config: Config, jar: Jar, request: Request, answers: Answers)
  {
    var headers := SessionHeaders(config, jar, request, answers);
    || config.keepalive
    || (config.multitenancy.enabled && headers.Some? &&
        var remembered := Remembered(jar, answers.now);
        var tenant := TenantFor(config, request, remembered, headers.value, answers);
        tenant.Some? && tenant != remembered)
  }

  /** What validation makes of the credentials of an accepted session. */
  function CheckedCredentials(config: Config, jar: Jar, answers: Answers): Option<Credentials>
    requires SessionAccepted(config, jar, answers)
  {
    AuthHandler.Check(config, jar.main.value, Open(jar), answers).cookie.credentials
  }

  /** The session branch removes a session that is not accepted; one that is keeps its received
      credentials unless the cookie is stored, and loses the cookie at most when the backend
      does not know the user. */
  lemma SessionLeaves(config: Config, jar: Jar, request: Request, answers: Answers)
    ensures var after := MainAfter(AuthHandler.HandleSession(config, request, Open(jar), answers).view);
            if !SessionAccepted(config, jar, answers) then after == None
            else
              && (after.Some? ==>
                    after.value.credentials ==
                    if StoresSession(config, jar, request, answers) then CheckedCredentials(config, jar, answers)
                    else jar.main.value.credentials)
              && (SessionHeaders(config, jar, request, answers).Some? ==> after.Some?)
  {
    hide AuthHandler.Settle;
    hide AuthHandler.Check;
    hide AuthHandler.BuildAuthHeaderFromCookie;
    hide JwtAuth.GetKeepAliveExpiry;
    hide AuthHandler.GetAdditionalAuthHeader;
    hide TenantFor;
    if SessionAccepted(config, jar, answers) {
      CheckKeepsCookie(config, jar.main.value, Open(jar), answers);
      var check := AuthHandler.Check(config, jar.main.value, Open(jar), answers);
      var prepared := AuthHandler.PrepareSession(config, request, check, answers.now);
      if prepared.Some? {
        SettleByTenant(config, request, prepared.value.view, prepared.value.cookie, prepared.value.headers, None,
                       answers);
      }
    }
  }

  /** Accepted credentials mint a cookie of their own; others change nothing. */
  lemma CredentialsLeave(config: Config, jar: Jar, request: Request, answers: Answers)
    ensures var after := MainAfter(AuthHandler.HandleCredentials(config, request, Open(jar), answers).view);
            if CredentialHeaders(config, request, answers).Some?
            then after.Some? && after.value.credentials == Some(Credentials(None, true, None, None))
            else after == jar.main
  {
    hide AuthHandler.Settle;
    hide AuthHandler.PrepareCredentials;
    hide AuthHandler.NewCookie;
    hide AuthHandler.StoreToken;
    hide AuthHandler.GetAdditionalAuthHeader;
    hide TenantFor;
    hide Remembered;
    var user := answers.authinfo(AuthHandler.GetAdditionalAuthHeader(config, request));
    if user.Some? {
      MintedCookie(config, jar, request, user.value.userName, answers.now);
      var prepared := AuthHandler.PrepareCredentials(config, request, Open(jar), user.value.userName, answers.now);
      if prepared.Some? {
        SettleByTenant(config, request, prepared.value.view, prepared.value.cookie, prepared.value.headers, user,
                       answers);
      }
    }
  }
}
