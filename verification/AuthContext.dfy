/** What the handlers are given: the plugin's configuration, the incoming request, and the
    answers of everything outside the plugin. */
module AuthContext {
  import opened Wrappers
  import opened SecurityCookie
  import opened Exchange
  import opened CookieSplitter

  type Headers = map<string, string>

  /** The `exp` claim of a token's payload, or Malformed when the payload does not decode. */
  datatype Claim = Malformed | NoExp | Exp(exp: real)

  datatype AuthKind =
    | Jwt(headerName: string, urlParam: string)
    | OpenId(refreshTokens: bool, serverBasePath: string, escape: string -> string)

  datatype Multitenancy = Multitenancy(
    enabled: bool,
    aggregationView: bool,
    preferred: seq<string>,
    enableGlobal: bool)

  datatype Config = Config(
    kind: AuthKind,
    storage: Storage,
    ttl: Time,
    keepalive: bool,
    unauthenticatedRoutes: seq<string>,
    multitenancy: Multitenancy,
    lower: string -> string,
    claimOf: string -> Claim)

  /** The schema asks for at least one split cookie for both authentication types. It sets no
      minimum for the time-to-live, which is assumed not to be negative, and the codec is
      assumed to keep what zlib promises. */
  ghost predicate ValidConfig(config: Config) {
    config.ttl >= 0.0 && config.storage.additionalCookies >= 1 && Lossless(config.storage.codec)
  }

  datatype Request = Request(pathname: string, query: map<string, string>, headers: Headers)

  datatype AuthInfo = AuthInfo(userName: string, tenants: seq<string>)

  datatype DashboardsInfo = DashboardsInfo(
    multitenancyEnabled: bool,
    privateTenantEnabled: bool,
    defaultTenant: Option<string>)

  datatype TokenResponse = TokenResponse(
    idToken: Option<string>,
    refreshToken: Option<string>,
    expiresIn: Option<real>)

  /** The clock, the backend (None where a call is rejected) and the identity provider's
      token endpoint, all during one request. The backend may answer differently depending
      on the headers sent along. */
  datatype Answers = Answers(
    now: Time,
    authinfo: Headers -> Option<AuthInfo>,
    dashboardsinfo: Headers -> Option<DashboardsInfo>,
    refresh: string -> Option<TokenResponse>)

  /** The session cookie of a user whose authorization value is kept outside it. */
  function ExtraCookie(userName: string, authType: string, expiryTime: Time): Cookie {
    var credentials := Credentials(None, true, None, None);
    Cookie(Some(userName), Some(credentials), Some(authType), Some(expiryTime), None, None, None)
  }

  /** The authorization value is kept outside the session cookie. */
  predicate HasExtra(cookie: Cookie) {
    cookie.credentials.Some? && cookie.credentials.value.authHeaderValueExtra
  }

  /** The authorization value kept outside the session cookie; '' when there is none or it
      does not decompress. Both authentication types read it this way. */
  function ExtraValue(config: Config, cookie: Cookie, v: View): string {
    if !HasExtra(cookie) then "" else OrEmpty(StoredValue(v, config.storage))
  }

  method GetExtraValue(config: Config, raw: RawRequest, cookie: Cookie) returns (value: string)
    ensures value == ExtraValue(config, cookie, raw.GetView())
  {
    value := "";
    if HasExtra(cookie) {
      var stored := GetExtraAuthStorageValue(raw, config.storage);
      value := OrEmpty(stored);
    }
  }
}
