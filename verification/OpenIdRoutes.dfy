/** The OpenID login, logout and fragment-capture routes
    (server/auth/types/openid/routes.ts): the authorization-code flow of section 4.1 of RFC 6749. */
module OpenIdRoutes {
  import opened Wrappers
  import opened Text
  import opened SecurityCookie
  import opened Exchange
  import opened CookieSplitter
  import opened AuthContext
  import opened NextUrl
  import OpenIdAuth

  datatype LoginQuery = LoginQuery(
    code: Option<string>,
    state: Option<string>,
    nextUrl: Option<string>,
    redirectHash: Option<string>)

  /** A call to the provider or the backend; the source tells an `authentication exception`
      from every other error by its text. */
  datatype Reply<+T> = Answer(value: T) | Rejected(authenticationException: bool)

  datatype LoginAnswers = LoginAnswers(
    now: Time,
    nonce: string,
    baseRedirectUrl: string,
    exchangeCode: string -> Reply<TokenResponse>,
    authenticate: string -> Reply<string>)

  datatype LoginOutcome =
    | BadRequest
    | RedirectedToProvider(state: string)
    | RestartedLogin
    | Unauthorized
    | Established(state: string, location: string)

  datatype LoginResult = LoginResult(outcome: LoginOutcome, view: View)

  /** `request.query.nextUrl || getBaseRedirectUrl(...) || '/'` */
  function GetNextUrl(query: LoginQuery, answers: LoginAnswers): string {
    if Truthy(query.nextUrl) then query.nextUrl.value
    else if answers.baseRedirectUrl != "" then answers.baseRedirectUrl
    else "/"
  }

  function FlowFor(query: LoginQuery, answers: LoginAnswers): OidcFlow {
    OidcFlow(Some(answers.nonce), GetNextUrl(query, answers), query.redirectHash == Some("true"))
  }

  function FlowCookie(flow: OidcFlow): Cookie {
    Cookie(None, None, Some(OpenIdAuth.TYPE), None, None, Some(flow), None)
  }

  function LocationFor(kind: AuthKind, flow: OidcFlow): string
    requires kind.OpenId?
  {
    if flow.redirectHash then
      kind.serverBasePath + "/auth/openid/redirectUrlFragment?nextUrl=" + kind.escape(flow.nextUrl)
    else flow.nextUrl
  }

  /** The flow this callback completes: the one in the browser's cookie, provided the
      callback's state is the one that cookie records (section 10.12 of RFC 6749). */
  function MatchingFlow(query: LoginQuery, v: View, now: Time): Option<OidcFlow> {
    var cookie := v.Session(now);
    if cookie.Some? && cookie.value.oidc.Some? && Truthy(cookie.value.oidc.value.state)
       && cookie.value.oidc.value.state == query.state
    then cookie.value.oidc else None
  }

  /** `Bearer ${tokenResponse.idToken}` */
  function BearerOf(tokens: TokenResponse): string {
    "Bearer " + if tokens.idToken.Some? then tokens.idToken.value else "undefined"
  }

  function SessionCookie(config: Config, userName: string, tokens: TokenResponse, expiry: Option<Time>,
                         now: Time): Cookie
    requires config.kind.OpenId?
  {
    var refreshToken := if config.kind.refreshTokens && Truthy(tokens.refreshToken) then tokens.refreshToken else None;
    Cookie(Some(userName), Some(Credentials(None, true, refreshToken, expiry)),
           Some(OpenIdAuth.TYPE), Some(now + config.ttl), None, None, None)
  }

  function RedirectToLogin(v: View): LoginResult {
    LoginResult(RestartedLogin, v.Clear())
  }

  function FailedLogin(v: View, authenticationException: bool): LoginResult {
    if authenticationException then LoginResult(Unauthorized, v) else RedirectToLogin(v)
  }

  predicate IsInitiation(config: Config, query: LoginQuery)
    requires config.kind.OpenId?
  {
    ValidateNextUrl(query.nextUrl, Some(config.kind.serverBasePath)).None? && !Truthy(query.code)
  }

  /** What a redeemed code is worth: the header to keep and the session cookie to set. */
  datatype Grant = Grant(bearer: string, session: Cookie)

  function Redeem(config: Config, code: string, answers: LoginAnswers): Reply<Grant>
    requires config.kind.OpenId?
  {
    match answers.exchangeCode(code)
    case Rejected(e) => Rejected(e)
    case Answer(tokens) =>
      match answers.authenticate(BearerOf(tokens))
      case Rejected(e) => Rejected(e)
      case Answer(userName) =>
        var expiry := OpenIdAuth.GetExpirationDate(tokens, answers.now, config.claimOf);
        if expiry.None? then Rejected(false)
        else Answer(Grant(BearerOf(tokens), SessionCookie(config, userName, tokens, expiry.value, answers.now)))
  }

  function Callback(config: Config, query: LoginQuery, code: string, v: View, answers: LoginAnswers): LoginResult
    requires config.kind.OpenId?
  {
    var flow := MatchingFlow(query, v, answers.now);
    if flow.None? then RedirectToLogin(v)
    else
      match Redeem(config, code, answers)
      case Rejected(e) => FailedLogin(v, e)
      case Answer(grant) =>
        LoginResult(Established(flow.value.state.value, LocationFor(config.kind, flow.value)),
                    StoreValue(v, grant.bearer, config.storage).Set(grant.session))
  }

  function HandleLogin(config: Config, query: LoginQuery, v: View, answers: LoginAnswers): LoginResult
    requires config.kind.OpenId?
  {
    if ValidateNextUrl(query.nextUrl, Some(config.kind.serverBasePath)).Some? then LoginResult(BadRequest, v)
    else if !Truthy(query.code) then
      LoginResult(RedirectedToProvider(answers.nonce), v.Set(FlowCookie(FlowFor(query, answers))))
    else Callback(config, query, query.code.value, v, answers)
  }

  method Login(config: Config, raw: RawRequest, query: LoginQuery, answers: LoginAnswers)
    returns (outcome: LoginOutcome)
    requires config.kind.OpenId?
    modifies raw
    ensures LoginResult(outcome, raw.GetView()) == HandleLogin(config, query, old(raw.GetView()), answers)
  {
    if ValidateNextUrl(query.nextUrl, Some(config.kind.serverBasePath)).Some? {
      return BadRequest;
    }
    if !Truthy(query.code) {
      var flow := OidcFlow(Some(answers.nonce), GetNextUrl(query, answers), query.redirectHash == Some("true"));
      raw.SetSession(FlowCookie(flow));
      return RedirectedToProvider(answers.nonce);
    }
    var cookie := raw.GetSession(answers.now);
    if cookie.None? || cookie.value.oidc.None? || !Truthy(cookie.value.oidc.value.state)
       || cookie.value.oidc.value.state != query.state {
      raw.ClearSession();
      return RestartedLogin;
    }
    var flow := cookie.value.oidc.value;
    var established := ExchangeCode(config, raw, query.code.value, answers);
    match established {
      case Answer(_) =>
        return Established(flow.state.value, LocationFor(config.kind, flow));
      case Rejected(authenticationException) =>
        if authenticationException {
          return Unauthorized;
        }
        raw.ClearSession();
        return RestartedLogin;
    }
  }

  /** The body of the callback's `try` block: nothing is written unless everything succeeds. */
  method ExchangeCode(config: Config, raw: RawRequest, code: string, answers: LoginAnswers)
    returns (reply: Reply<Grant>)
    requires config.kind.OpenId?
    modifies raw
    ensures reply == Redeem(config, code, answers)
    ensures raw.GetView() ==
            match reply
            case Rejected(_) => old(raw.GetView())
            case Answer(grant) => StoreValue(old(raw.GetView()), grant.bearer, config.storage).Set(grant.session)
  {
    var tokens := answers.exchangeCode(code);
    if tokens.Rejected? {
      return Rejected(tokens.authenticationException);
    }
    var user := answers.authenticate(BearerOf(tokens.value));
    if user.Rejected? {
      return Rejected(user.authenticationException);
    }
    var expiry := OpenIdAuth.GetExpirationDate(tokens.value, answers.now, config.claimOf);
    if expiry.None? {
      return Rejected(false);
    }
    var session := SessionCookie(config, user.value, tokens.value, expiry.value, answers.now);
    SetExtraAuthStorage(raw, BearerOf(tokens.value), config.storage);
    raw.SetSession(session);
    return Answer(Grant(BearerOf(tokens.value), session));
  }

  /** `idTokenHint` is what the provider is told to log out. */
  datatype LogoutOutcome = LoggedOut(idTokenHint: Option<string>) | Failed

  datatype LogoutResult = LogoutResult(outcome: LogoutOutcome, view: View)

  /** `value.split(' ')[1]` */
  function SecondWord(value: string): Option<string> {
    var words := Split(value, {' '});
    if |words| > 1 then Some(words[1]) else None
  }

  function HandleLogout(config: Config, v: View, now: Time): LogoutResult {
    var cookie := v.Session(now);
    var extra := if cookie.Some? && HasExtra(cookie.value) then StoredValue(v, config.storage) else Some("");
    if extra.None? then LogoutResult(Failed, v)
    else
      var w := ClearSplit(v, config.storage.cookiePrefix, config.storage.additionalCookies).Clear();
      var outcome :=
        if extra.value != "" then LoggedOut(SecondWord(extra.value))
        else if cookie.None? then LoggedOut(None)
        else if cookie.value.credentials.None? || cookie.value.credentials.value.authHeaderValue.None? then Failed
        else LoggedOut(SecondWord(cookie.value.credentials.value.authHeaderValue.value));
      LogoutResult(outcome, w)
  }

  method Logout(config: Config, raw: RawRequest, now: Time) returns (outcome: LogoutOutcome)
    modifies raw
    ensures LogoutResult(outcome, raw.GetView()) == HandleLogout(config, old(raw.GetView()), now)
  {
    var cookie := raw.GetSession(now);
    var tokenFromExtraStorage := "";
    if cookie.Some? && HasExtra(cookie.value) {
      var stored := GetExtraAuthStorageValue(raw, config.storage);
      if stored.None? {
        return Failed;
      }
      tokenFromExtraStorage := stored.value;
    }
    ClearSplitCookies(raw, config.storage.cookiePrefix, config.storage.additionalCookies);
    raw.ClearSession();
    if tokenFromExtraStorage != "" {
      return LoggedOut(SecondWord(tokenFromExtraStorage));
    }
    if cookie.None? {
      return LoggedOut(None);
    }
    if cookie.value.credentials.None? || cookie.value.credentials.value.authHeaderValue.None? {
      return Failed;
    }
    return LoggedOut(SecondWord(cookie.value.credentials.value.authHeaderValue.value));
  }

  /** What the logout route tells the provider: the token of the stored bearer value, and nothing
      without a session. It stops, and leaves everything as it is, when the stored value cannot
      be read; during a login it clears everything and then fails. */
  lemma LogoutHints(config: Config, v: View, now: Time, token: string)
    requires Free(token, {' '})
    ensures var cookie, logout := v.Session(now), HandleLogout(config, v, now);
            && (cookie.None? ==> logout.outcome == LoggedOut(None))
            && (cookie.Some? && HasExtra(cookie.value) ==>
                  && (StoredValue(v, config.storage) == None ==> logout == LogoutResult(Failed, v))
                  && (StoredValue(v, config.storage) == Some("Bearer " + token) ==>
                        logout.outcome == LoggedOut(Some(token))))
            && (cookie.Some? && !HasExtra(cookie.value) && cookie.value.credentials.Some?
                && cookie.value.credentials.value.authHeaderValue == Some("Bearer " + token) ==>
                  logout.outcome == LoggedOut(Some(token)))
            && (cookie.Some? && cookie.value.credentials.None? ==>
                  logout.outcome == Failed && logout.view.mainWrite == Cleared)
  {
    hide StoredValue;
    hide ClearFirst;
    assert "Bearer " + token == "Bearer" + [' '] + token;
    SplitOfConcat("Bearer", ' ', token, {' '});
    SplitOfFree("Bearer", {' '});
    SplitOfFree(token, {' '});
    hide Split;
  }
}
