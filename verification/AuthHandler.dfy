/** What happens to every request before its route runs
    (server/auth/types/authentication_type.ts). */
module AuthHandler {
  import opened Wrappers
  import opened SecurityCookie
  import opened Exchange
  import opened AuthContext
  import opened TenantResolver
  import JwtAuth
  import OpenIdAuth

  const ROUTES_TO_IGNORE := ["/app/login"]
  const ROUTES_AUTH_OPTIONAL := ["/api/core/capabilities"]

  datatype Outcome =
    | PassedThrough                       // authenticated without headers or state
    | Authenticated(headers: Headers, selectedTenant: Option<string>, authInfo: AuthInfo)
    | NotHandled
    | Unauthorized
    | RedirectedToLogin
    | NoTenantAvailable
    | Failed                              // an error reaches the framework

  datatype Result = Result(outcome: Outcome, view: View)

  predicate AuthNotRequired(config: Config, request: Request) {
    request.pathname != "" &&
    (request.pathname in ROUTES_TO_IGNORE || request.pathname in config.unauthenticatedRoutes)
  }

  predicate AuthOptional(request: Request) {
    request.pathname in ROUTES_AUTH_OPTIONAL
  }

  predicate IsBundle(request: Request) {
    "/bundles/" <= request.pathname
  }

  predicate IsPageRequest(request: Request) {
    var path := if request.pathname == "" then "/" else request.pathname;
    "/app/" <= path || path == "/" || "/goto/" <= path
  }

  // ---- the authentication type in force ------------------------------------

  predicate RequestIncludesAuthInfo(config: Config, request: Request) {
    match config.kind
    case Jwt(_, _) => JwtAuth.RequestIncludesAuthInfo(config.kind, request)
    case OpenId(_, _, _) => OpenIdAuth.RequestIncludesAuthInfo(request)
  }

  function GetAdditionalAuthHeader(config: Config, request: Request): Headers {
    match config.kind
    case Jwt(_, _) => JwtAuth.GetAdditionalAuthHeader(config.kind, request)
    case OpenId(_, _, _) => map[]
  }

  function NewCookie(config: Config, request: Request, userName: string, now: Time): Option<Cookie> {
    match config.kind
    case Jwt(_, _) => JwtAuth.NewCookie(config, request, userName, now)
    case OpenId(_, _, _) => Some(OpenIdAuth.NewCookie(config, userName, now))
  }

  function StoreToken(config: Config, request: Request, v: View): View {
    match config.kind
    case Jwt(_, _) => JwtAuth.StoreToken(config, request, v)
    case OpenId(_, _, _) => OpenIdAuth.StoreToken(config, request, v)
  }

  method GetCookie(config: Config, raw: RawRequest, request: Request, userName: string, now: Time)
    returns (cookie: Option<Cookie>)
    modifies raw`states
    ensures cookie == NewCookie(config, request, userName, now)
    ensures raw.GetView() == StoreToken(config, request, old(raw.GetView()))
  {
    match config.kind {
      case Jwt(_, _) =>
        cookie := JwtAuth.GetCookie(config, raw, request, userName, now);
      case OpenId(_, _, _) =>
        var c := OpenIdAuth.GetCookie(config, raw, request, userName, now);
        cookie := Some(c);
    }
  }

  function Check(config: Config, cookie: Cookie, v: View, answers: Answers): (r: OpenIdAuth.Validity)
    ensures r.valid ==> r.cookie.credentials.Some?
  {
    match config.kind
    case Jwt(_, _) => OpenIdAuth.Validity(JwtAuth.IsValidCookie(config, cookie, v), cookie, v)
    case OpenId(_, _, _) => OpenIdAuth.Check(config, cookie, v, answers)
  }

  method IsValidCookie(config: Config, raw: RawRequest, cookie: Cookie, answers: Answers)
    returns (valid: bool, updated: Cookie)
    modifies raw`states
    ensures OpenIdAuth.Validity(valid, updated, raw.GetView()) == Check(config, cookie, old(raw.GetView()), answers)
  {
    match config.kind {
      case Jwt(_, _) =>
        valid, updated := JwtAuth.IsValidCookie(config, cookie, raw.GetView()), cookie;
      case OpenId(_, _, _) =>
        valid, updated := OpenIdAuth.IsValidCookie(config, raw, cookie, answers);
    }
  }

  function GetKeepAliveExpiry(config: Config, cookie: Cookie, v: View, now: Time): Option<Time>
    requires cookie.credentials.Some?
  {
    match config.kind
    case Jwt(_, _) => JwtAuth.GetKeepAliveExpiry(config, cookie, v, now)
    case OpenId(_, _, _) => Some(now + config.ttl)
  }

  function BuildAuthHeaderFromCookie(config: Config, cookie: Cookie, v: View): Headers
    requires cookie.credentials.Some?
  {
    match config.kind
    case Jwt(_, _) => JwtAuth.BuildAuthHeaderFromCookie(config, cookie, v)
    case OpenId(_, _, _) => OpenIdAuth.BuildAuthHeaderFromCookie(config, cookie, v)
  }

  function HandleUnauthedRequest(config: Config, request: Request): Outcome {
    if config.kind.OpenId? && IsPageRequest(request) then RedirectedToLogin else Unauthorized
  }

  // ---- tenant ----------------------------------------------------------------

  function PolicyFor(config: Config, info: DashboardsInfo): Policy {
    Policy(config.multitenancy.preferred, config.multitenancy.enableGlobal,
           info.multitenancyEnabled, info.privateTenantEnabled, config.lower)
  }

  function AccountOf(info: AuthInfo): Account {
    Account(info.userName, info.tenants)
  }

  function SelectTenant(config: Config, request: Request, cookieTenant: Option<string>,
                        user: AuthInfo, info: DashboardsInfo): Option<string> {
    var requested := RequestedTenant(request.query, request.headers, cookieTenant, info.defaultTenant,
                                     info.multitenancyEnabled);
    Resolution(AccountOf(user), requested, PolicyFor(config, info))
  }

  datatype Tenancy =
    | Selected(tenant: string)
    | NoneAvailable
    | Unauthenticated
    | BackendError

  /** `authInfo` is already known when the request brought its own credentials. */
  function ResolveTenant(config: Config, request: Request, cookie: Cookie, headers: Headers,
                         authInfo: Option<AuthInfo>, answers: Answers): Tenancy {
    var user := if authInfo.Some? then authInfo else answers.authinfo(headers);
    if user.None? then Unauthenticated
    else
      var info := answers.dashboardsinfo(headers);
      if info.None? then BackendError
      else
        var tenant := SelectTenant(config, request, cookie.tenant, user.value, info.value);
        if tenant.None? then NoneAvailable else Selected(tenant.value)
  }

  // ---- the handler -----------------------------------------------------------

  function Unauthed(config: Config, request: Request, v: View): Result {
    Result(
      if IsBundle(request) then NotHandled
      else if AuthOptional(request) then PassedThrough
      else HandleUnauthedRequest(config, request),
      v.Clear())
  }

  function Finish(v: View, headers: Headers, tenant: Option<string>, authInfo: Option<AuthInfo>,
                  answers: Answers): Result {
    var user := if authInfo.Some? then authInfo else answers.authinfo(headers);
    Result(if user.None? then Failed else Authenticated(headers, tenant, user.value), v)
  }

  /** The part both branches share: pick a tenant, remember it, and hand the request on. */
  function Settle(config: Config, request: Request, v: View, cookie: Cookie, headers: Headers,
                  authInfo: Option<AuthInfo>, answers: Answers): Result {
    if !config.multitenancy.enabled then Finish(v, headers, None, authInfo, answers)
    else
      match ResolveTenant(config, request, cookie, headers, authInfo, answers)
      case Unauthenticated =>
        if IsBundle(request) then Result(NotHandled, v)
        else Result(HandleUnauthedRequest(config, request), v.Clear())
      case BackendError => Result(Failed, v)
      case NoneAvailable => Result(NoTenantAvailable, v)
      case Selected(tenant) =>
        var sent := if config.multitenancy.aggregationView then GLOBAL_TENANT_SYMBOL else tenant;
        var w := if Some(tenant) != cookie.tenant then v.Set(cookie.(tenant := Some(tenant))) else v;
        Finish(w, headers + map["securitytenant" := sent], Some(tenant), authInfo, answers)
  }

  /** Where the two branches rejoin: what has been written, and the cookie and headers in use. */
  datatype Prepared = Prepared(view: View, cookie: Cookie, headers: Headers)

  /** None when the token's payload does not parse. */
  function PrepareCredentials(config: Config, request: Request, v: View, userName: string,
                              now: Time): Option<Prepared> {
    var w := StoreToken(config, request, v);
    var minted := NewCookie(config, request, userName, now);
    if minted.None? then None
    else
      var browser := w.Session(now);
      var cookie := if browser.Some? && browser.value.tenant.Some?
                    then minted.value.(tenant := browser.value.tenant) else minted.value;
      Some(Prepared(w.Set(cookie), cookie, GetAdditionalAuthHeader(config, request)))
  }

  function HandleCredentials(config: Config, request: Request, v: View, answers: Answers): Result {
    var user := answers.authinfo(GetAdditionalAuthHeader(config, request));
    if user.None? then Result(Unauthorized, v)
    else
      match PrepareCredentials(config, request, v, user.value.userName, answers.now)
      case None => Result(Unauthorized, StoreToken(config, request, v))
      case Some(p) => Settle(config, request, p.view, p.cookie, p.headers, user, answers)
  }

  /** None when keep-alive cannot read the stored token's payload. */
  function PrepareSession(config: Config, request: Request, check: OpenIdAuth.Validity, now: Time): Option<Prepared>
    requires check.cookie.credentials.Some?
  {
    var expiry := if config.keepalive then GetKeepAliveExpiry(config, check.cookie, check.view, now)
                  else check.cookie.expiryTime;
    if config.keepalive && expiry.None? then None
    else
      var cookie := check.cookie.(expiryTime := expiry);
      var w := if config.keepalive then check.view.Set(cookie) else check.view;
      Some(Prepared(w, cookie,
                    BuildAuthHeaderFromCookie(config, cookie, w) + GetAdditionalAuthHeader(config, request)))
  }

  function HandleSession(config: Config, request: Request, v: View, answers: Answers): Result {
    var stored := v.Session(answers.now);
    if stored.None? then Unauthed(config, request, v)
    else
      var check := Check(config, stored.value, v, answers);
      if !check.valid then Unauthed(config, request, check.view)
      else
        match PrepareSession(config, request, check, answers.now)
        case None => Result(Failed, check.view)
        case Some(p) => Settle(config, request, p.view, p.cookie, p.headers, None, answers)
  }

  function Handle(config: Config, request: Request, v: View, answers: Answers): Result {
    if AuthNotRequired(config, request) then Result(PassedThrough, v)
    else if RequestIncludesAuthInfo(config, request) then HandleCredentials(config, request, v, answers)
    else HandleSession(config, request, v, answers)
  }

  // The handler itself, in the order it works: `authHandler` is cut at the points where its
  // two branches begin and rejoin.

  method AuthHandler(config: Config, raw: RawRequest, request: Request, answers: Answers) returns (outcome: Outcome)
    modifies raw
    ensures Result(outcome, raw.GetView()) == Handle(config, request, old(raw.GetView()), answers)
  {
    if AuthNotRequired(config, request) {
      return PassedThrough;
    }
    if RequestIncludesAuthInfo(config, request) {
      outcome := AuthenticateWithCredentials(config, raw, request, answers);
    } else {
      outcome := AuthenticateWithSession(config, raw, request, answers);
    }
  }

  method AuthenticateWithCredentials(config: Config, raw: RawRequest, request: Request, answers: Answers)
    returns (outcome: Outcome)
    modifies raw
    ensures Result(outcome, raw.GetView()) == HandleCredentials(config, request, old(raw.GetView()), answers)
  {
    var authHeaders := GetAdditionalAuthHeader(config, request);
    var authInfo := answers.authinfo(authHeaders);
    if authInfo.None? {
      return Unauthorized;
    }
    var minted := GetCookie(config, raw, request, authInfo.value.userName, answers.now);
    if minted.None? {
      return Unauthorized;
    }
    var cookie := minted.value;
    var browserCookie := raw.GetSession(answers.now);
    if browserCookie.Some? && browserCookie.value.tenant.Some? {
      cookie := cookie.(tenant := browserCookie.value.tenant);
    }
    raw.SetSession(cookie);
    outcome := SettleTenant(config, raw, request, cookie, authHeaders, authInfo, answers);
  }

  method AuthenticateWithSession(config: Config, raw: RawRequest, request: Request, answers: Answers)
    returns (outcome: Outcome)
    modifies raw
    ensures Result(outcome, raw.GetView()) == HandleSession(config, request, old(raw.GetView()), answers)
  {
    var stored := raw.GetSession(answers.now);
    if stored.None? {
      outcome := RejectSession(config, raw, request);
      return;
    }
    var valid, cookie := IsValidCookie(config, raw, stored.value, answers);
    if !valid {
      outcome := RejectSession(config, raw, request);
      return;
    }
    if config.keepalive {
      var expiry := GetKeepAliveExpiry(config, cookie, raw.GetView(), answers.now);
      if expiry.None? {
        return Failed;
      }
      cookie := cookie.(expiryTime := expiry);
      raw.SetSession(cookie);
    }
    var authHeaders := BuildAuthHeaderFromCookie(config, cookie, raw.GetView());
    authHeaders := authHeaders + GetAdditionalAuthHeader(config, request);
    outcome := SettleTenant(config, raw, request, cookie, authHeaders, None, answers);
  }

  method RejectSession(config: Config, raw: RawRequest, request: Request) returns (outcome: Outcome)
    modifies raw`mainWrite
    ensures Result(outcome, raw.GetView()) == Unauthed(config, request, old(raw.GetView()))
  {
    raw.ClearSession();
    if IsBundle(request) {
      return NotHandled;
    }
    if AuthOptional(request) {
      return PassedThrough;
    }
    return HandleUnauthedRequest(config, request);
  }

  method SettleTenant(config: Config, raw: RawRequest, request: Request, cookie: Cookie, headers: Headers,
                      knownAuthInfo: Option<AuthInfo>, answers: Answers)
    returns (outcome: Outcome)
    modifies raw`mainWrite
    ensures Result(outcome, raw.GetView())
         == Settle(config, request, old(raw.GetView()), cookie, headers, knownAuthInfo, answers)
  {
    var authHeaders, authInfo, selectedTenant := headers, knownAuthInfo, None;
    if config.multitenancy.enabled {
      var tenancy := ResolveTenant(config, request, cookie, authHeaders, authInfo, answers);
      match tenancy {
        case NoneAvailable =>
          return NoTenantAvailable;
        case Unauthenticated =>
          if IsBundle(request) {
            return NotHandled;
          }
          raw.ClearSession();
          return HandleUnauthedRequest(config, request);
        case BackendError =>
          return Failed;
        case Selected(tenant) =>
          selectedTenant := Some(tenant);
          var sent := if config.multitenancy.aggregationView then GLOBAL_TENANT_SYMBOL else tenant;
          authHeaders := authHeaders + map["securitytenant" := sent];
          if Some(tenant) != cookie.tenant {
            raw.SetSession(cookie.(tenant := Some(tenant)));
          }
      }
    }
    if authInfo.None? {
      authInfo := answers.authinfo(authHeaders);
      if authInfo.None? {
        return Failed;
      }
    }
    return Authenticated(authHeaders, selectedTenant, authInfo.value);
  }
}
