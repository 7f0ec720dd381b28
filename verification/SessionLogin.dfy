/** An OpenID login from the first redirect to the requests that live on it. */
module SessionLogin {
  import opened Wrappers
  import opened SecurityCookie
  import opened Exchange
  import opened CookieSplitter
  import opened AuthContext
  import opened SessionMachine
  import opened SessionRequests
  import opened OpenIdRoutes
  import AuthHandler
  import NextUrl
  import OpenIdAuth
  import OpenIdTokens
  import SessionRenewal

  // ---- how the login route answers ---------------------------------------------------------

  /** The url asked for, else the server's own, else the root. */
  function Target(query: LoginQuery, login: LoginAnswers): string {
    if query.nextUrl.Some? && query.nextUrl.value != "" then query.nextUrl.value
    else if login.baseRedirectUrl == "" then "/" else login.baseRedirectUrl
  }

  predicate TargetRefused(config: Config, query: LoginQuery)
    requires config.kind.OpenId?
  {
    && query.nextUrl.Some? && query.nextUrl.value != ""
    && !NextUrl.Accepts(query.nextUrl.value, config.kind.serverBasePath)
  }

  /** The flow recorded in the cookie this request can read, if the request names its state. */
  predicate NamesFlow(jar: Jar, query: LoginQuery, now: Time, flow: OidcFlow) {
    && Open(jar).Session(now).Some? && jar.main.value.oidc == Some(flow)
    && flow.state.Some? && flow.state.value != "" && query.state == flow.state
  }

  /** What the backend is shown for a token response. */
  function Shown(tokens: TokenResponse): string {
    "Bearer " + match tokens.idToken case Some(idToken) => idToken case None => "undefined"
  }

  /** The address a completed login leads to. */
  function Destination(kind: AuthKind, flow: OidcFlow): string
    requires kind.OpenId?
  {
    if !flow.redirectHash then flow.nextUrl
    else kind.serverBasePath + "/auth/openid/redirectUrlFragment?nextUrl=" + kind.escape(flow.nextUrl)
  }

  /** The refresh token a login keeps: the response's, where the setting asks for it. */
  function KeptRefreshToken(kind: AuthKind, tokens: TokenResponse): Option<string>
    requires kind.OpenId?
  {
    if !kind.refreshTokens || tokens.refreshToken == Some("") then None else tokens.refreshToken
  }

  /** The login is answered so, and leaves this session cookie. */
  predicate Answers(config: Config, jar: Jar, event: Event, outcome: LoginOutcome, after: Option<Cookie>) {
    Observe(config, jar, event) == LoginAnswered(outcome) && Step(config, jar, event).main == after
  }

  lemma LoginStep(config: Config, jar: Jar, event: Event)
    requires config.kind.OpenId? && event.OpenIdLogin?
    ensures var r := HandleLogin(config, event.query, Open(jar), event.login);
            && Observe(config, jar, event) == LoginAnswered(r.outcome)
            && Step(config, jar, event).main == MainAfter(r.view)
  {
    hide HandleLogin;
  }

  /** Main result: an unacceptable target is refused; without a code the browser is sent to the
      provider and the nonce, the target and the wish for a fragment are recorded. */
  lemma InitiationAnswers(config: Config, jar: Jar, event: Event)
    requires config.kind.OpenId? && event.OpenIdLogin?
    ensures var query, login := event.query, event.login;
            if TargetRefused(config, query) then Answers(config, jar, event, LoginOutcome.BadRequest, jar.main)
            else if !Truthy(query.code) then
              Answers(config, jar, event, RedirectedToProvider(login.nonce),
                      Some(Cookie(None, None, Some("openid"), None, None,
                                  Some(OidcFlow(Some(login.nonce), Target(query, login),
                                                query.redirectHash == Some("true"))), None)))
            else (forall flow :: !NamesFlow(jar, query, login.now, flow)) ==>
                   Answers(config, jar, event, RestartedLogin, None)
  {
    hide NextUrl.ValidateNextUrl;
    hide Redeem;
    hide Step;
    hide Observe;
    LoginStep(config, jar, event);
    TargetRefusedIff(config, event.query);
    var cookie := Open(jar).Session(event.login.now);
    if cookie.Some? && cookie.value.oidc.Some? {
      assert !NamesFlow(jar, event.query, event.login.now, cookie.value.oidc.value) ==>
          MatchingFlow(event.query, Open(jar), event.login.now).None?;
    }
  }

  lemma TargetRefusedIff(config: Config, query: LoginQuery)
    requires config.kind.OpenId?
    ensures TargetRefused(config, query) <==>
            NextUrl.ValidateNextUrl(query.nextUrl, Some(config.kind.serverBasePath)).Some?
  {
    if query.nextUrl.Some? && query.nextUrl.value != "" {
      assert query.nextUrl == Some(query.nextUrl.value);
    }
  }

  /** What a callback that names the recorded flow comes to, call by call. */
  predicate CallbackAnswers(config: Config, jar: Jar, event: Event, code: string, flow: OidcFlow)
    requires config.kind.OpenId? && event.OpenIdLogin? && flow.state.Some?
  {
    var login := event.login;
    match login.exchangeCode(code)
    case Rejected(true) => Answers(config, jar, event, LoginOutcome.Unauthorized, jar.main)
    case Rejected(false) => Answers(config, jar, event, RestartedLogin, None)
    case Answer(tokens) =>
      match login.authenticate(Shown(tokens))
      case Rejected(true) => Answers(config, jar, event, LoginOutcome.Unauthorized, jar.main)
      case Rejected(false) => Answers(config, jar, event, RestartedLogin, None)
      case Answer(user) =>
        match OpenIdAuth.GetExpirationDate(tokens, login.now, config.claimOf)
        case None => Answers(config, jar, event, RestartedLogin, None)
        case Some(expiry) =>
          var credentials := Credentials(None, true, KeptRefreshToken(config.kind, tokens), expiry);
          Answers(config, jar, event, Established(flow.state.value, Destination(config.kind, flow)),
                  Some(Cookie(Some(user), Some(credentials), Some("openid"), Some(login.now + config.ttl),
                              None, None, None)))
  }

  /** Main result: a callback that names the recorded flow establishes a session exactly when
      the code is exchanged, the backend knows the token it is shown, and the expiry can be
      read. The session cookie then holds that user, the response's refresh token if the
      setting asks for it, and both expiries. */
  lemma CallbackIs(config: Config, jar: Jar, event: Event, flow: OidcFlow)
    requires config.kind.OpenId? && event.OpenIdLogin? && !TargetRefused(config, event.query)
    requires Truthy(event.query.code) && NamesFlow(jar, event.query, event.login.now, flow)
    ensures CallbackAnswers(config, jar, event, event.query.code.value, flow)
  {
    hide NextUrl.ValidateNextUrl;
    hide OpenIdAuth.GetExpirationDate;
    hide SplitIntoCookies;
    hide Step;
    hide Observe;
    LoginStep(config, jar, event);
    TargetRefusedIff(config, event.query);
  }

  // ---- what a completed login leaves --------------------------------------------------------

  ghost predicate LogsIn(config: Config, jar: Jar, event: Event, tokens: TokenResponse, user: string,
                         expiry: Option<Time>)
    requires config.kind.OpenId?
  {
    && event.OpenIdLogin?
    && (exists state, location :: Observe(config, jar, event) == LoginAnswered(Established(state, location)))
    && event.query.code.Some? && event.login.exchangeCode(event.query.code.value) == Answer(tokens)
    && event.login.authenticate(Shown(tokens)) == Answer(user)
    && OpenIdAuth.GetExpirationDate(tokens, event.login.now, config.claimOf) == Some(expiry)
  }

  /** Main result: whatever the browser held, a completed login leaves exactly this cookie, and
      the token the backend was shown in the split cookies. */
  lemma LoginLeaves(config: Config, jar: Jar, event: Event, tokens: TokenResponse, user: string, expiry: Option<Time>)
    requires ValidConfig(config) && config.kind.OpenId? && LogsIn(config, jar, event, tokens, user, expiry)
    ensures var after := Step(config, jar, event);
            && after.main == Some(Cookie(Some(user),
                                         Some(Credentials(None, true, KeptRefreshToken(config.kind, tokens), expiry)),
                                         Some("openid"), Some(event.login.now + config.ttl), None, None, None))
            && Content(config, after) == Some(Shown(tokens))
  {
    hide NextUrl.ValidateNextUrl;
    hide OpenIdAuth.GetExpirationDate;
    hide SplitIntoCookies;
    hide Content;
    hide Step;
    hide Observe;
    hide ValidConfig;
    LoginStep(config, jar, event);
    StepKeepsStore(config, jar, event);
  }

  /** Every completed login is of this kind. */
  lemma LoginIsComplete(config: Config, jar: Jar, event: Event)
    returns (tokens: TokenResponse, user: string, expiry: Option<Time>)
    requires config.kind.OpenId? && event.OpenIdLogin?
    requires exists state, location :: Observe(config, jar, event) == LoginAnswered(Established(state, location))
    ensures LogsIn(config, jar, event, tokens, user, expiry)
  {
    hide NextUrl.ValidateNextUrl;
    hide OpenIdAuth.GetExpirationDate;
    hide SplitIntoCookies;
    hide Step;
    hide Observe;
    LoginStep(config, jar, event);
    tokens := event.login.exchangeCode(event.query.code.value).value;
    user := event.login.authenticate(Shown(tokens)).value;
    expiry := OpenIdAuth.GetExpirationDate(tokens, event.login.now, config.claimOf).value;
  }

  // ---- living on it -------------------------------------------------------------------------

  /** The jar a completed login leaves, for a user with a name. */
  ghost predicate HoldsLogin(config: Config, jar: Jar, idToken: string, refreshToken: Option<string>, until: Time,
                             expiry: Time) {
    && jar.main.Some? && jar.main.value.authType == Some("openid") && Truthy(jar.main.value.username)
    && jar.main.value.credentials == Some(Credentials(None, true, refreshToken, Some(until)))
    && jar.main.value.expiryTime == Some(expiry) && expiry != 0.0
    && jar.main.value.oidc.None? && jar.main.value.saml.None?
    && Content(config, jar) == Some("Bearer " + idToken)
  }

  lemma LoginIsHeld(config: Config, jar: Jar, event: Event, tokens: TokenResponse, user: string, until: Time)
    requires ValidConfig(config) && config.kind.OpenId? && LogsIn(config, jar, event, tokens, user, Some(until))
    requires user != "" && tokens.idToken.Some? && event.login.now + config.ttl != 0.0
    ensures HoldsLogin(config, Step(config, jar, event), tokens.idToken.value,
                       KeptRefreshToken(config.kind, tokens), until, event.login.now + config.ttl)
  {
    hide LogsIn;
    hide Content;
    hide Step;
    hide ValidConfig;
    LoginLeaves(config, jar, event, tokens, user, Some(until));
  }

  /** Before the token and the cookie expire, the session is accepted as it is. */
  lemma HeldIsAccepted(config: Config, jar: Jar, answers: Answers, idToken: string, refreshToken: Option<string>,
                       until: Time, expiry: Time)
    requires config.kind.OpenId? && HoldsLogin(config, jar, idToken, refreshToken, until, expiry)
    requires answers.now < until && answers.now <= expiry
    ensures SessionAccepted(config, jar, answers)
    ensures AuthHandler.Check(config, jar.main.value, Open(jar), answers)
         == OpenIdAuth.Validity(true, jar.main.value, Open(jar))
  {
    hide StoredValue;
    hide OpenIdAuth.Check;
    OpenIdTokens.ValidAsItIs(config, jar.main.value, Open(jar), answers);
  }

  /** Main result: the next request judged by the session is asked about, and sent on, with
      exactly the token of the login, as long as neither it nor the cookie has expired. */
  lemma LoginIsSent(config: Config, jar: Jar, login: Event, tokens: TokenResponse, user: string, until: Time,
                    next: Event)
    requires ValidConfig(config) && config.kind.OpenId? && LogsIn(config, jar, login, tokens, user, Some(until))
    requires user != "" && tokens.idToken.Some? && login.login.now + config.ttl != 0.0
    requires JudgedBySession(config, next) && next.Now() < until && next.Now() <= login.login.now + config.ttl
    ensures var after := Step(config, jar, login);
            && SessionAccepted(config, after, next.answers)
            && PreparedHeaders(config, after, next.request, next.answers)
               == Some(map["authorization" := "Bearer " + tokens.idToken.value])
  {
    hide Observe;
    hide Step;
    hide ValidConfig;
    hide HoldsLogin;
    hide PreparedHeaders;
    var after := Step(config, jar, login);
    var refreshToken := KeptRefreshToken(config.kind, tokens);
    LoginIsHeld(config, jar, login, tokens, user, until);
    HeldIsAccepted(config, after, next.answers, tokens.idToken.value, refreshToken, until,
                   login.login.now + config.ttl);
    HeldIsPrepared(config, after, next.request, next.answers, tokens.idToken.value, refreshToken, until,
                   login.login.now + config.ttl);
  }

  lemma HeldIsPrepared(config: Config, jar: Jar, request: Request, answers: Answers, idToken: string,
                       refreshToken: Option<string>, until: Time, expiry: Time)
    requires config.kind.OpenId? && HoldsLogin(config, jar, idToken, refreshToken, until, expiry)
    requires answers.now < until && answers.now <= expiry
    ensures PreparedHeaders(config, jar, request, answers) == Some(map["authorization" := "Bearer " + idToken])
  {
    hide AuthHandler.Check;
    hide StoredValue;
    HeldIsAccepted(config, jar, answers, idToken, refreshToken, until, expiry);
    var kept := jar.main.value.(expiryTime := Some(answers.now + config.ttl));
    SameStatesSameStore(config, Open(jar), Open(jar).Set(kept));
    assert map["authorization" := "Bearer " + idToken] + map[] == map["authorization" := "Bearer " + idToken];
  }

  /** Main result: once the token is over, the session lives on if and only if the provider,
      asked with exactly the refresh token of the login, answers with a readable token; and not
      at all when there is none. */
  lemma LoginIsRenewedIff(config: Config, jar: Jar, login: Event, tokens: TokenResponse, user: string, until: Time,
                          next: Event)
    requires ValidConfig(config) && config.kind.OpenId? && LogsIn(config, jar, login, tokens, user, Some(until))
    requires user != "" && tokens.idToken.Some? && login.login.now + config.ttl != 0.0
    requires JudgedBySession(config, next) && until <= next.Now() <= login.login.now + config.ttl
    ensures var refreshToken := KeptRefreshToken(config.kind, tokens);
            SessionAccepted(config, Step(config, jar, login), next.answers) <==>
            refreshToken.Some? && OpenIdTokens.Renews(next.answers.refresh(refreshToken.value), config.claimOf)
  {
    hide Observe;
    hide Step;
    hide HoldsLogin;
    LoginIsHeld(config, jar, login, tokens, user, until);
    HeldIsRenewedIff(config, Step(config, jar, login), next.answers, tokens.idToken.value,
                     KeptRefreshToken(config.kind, tokens), until, login.login.now + config.ttl);
  }

  lemma HeldIsRenewedIff(config: Config, jar: Jar, answers: Answers, idToken: string, refreshToken: Option<string>,
                         until: Time, expiry: Time)
    requires ValidConfig(config) && config.kind.OpenId? && refreshToken != Some("")
    requires HoldsLogin(config, jar, idToken, refreshToken, until, expiry) && until <= answers.now <= expiry
    ensures SessionAccepted(config, jar, answers) <==>
            refreshToken.Some? && OpenIdTokens.Renews(answers.refresh(refreshToken.value), config.claimOf)
  {
    hide StoredValue;
    hide OpenIdAuth.Check;
    hide OpenIdTokens.Renews;
    OpenIdTokens.ValidAsItIs(config, jar.main.value, Open(jar), answers);
    if refreshToken.Some? {
      OpenIdTokens.ValidIffRenewed(config, jar.main.value, Open(jar), answers, refreshToken.value);
    }
  }

  /** Main result: through any events that bring no other token, every session request that is
      sent on before the token of the login expires carries exactly that token. */
  lemma LoginIsSentUntilItExpires(config: Config, jar: Jar, login: Event, tokens: TokenResponse, user: string,
                                  until: Time, later: seq<Event>, i: nat)
    requires ValidConfig(config) && config.kind.OpenId? && LogsIn(config, jar, login, tokens, user, Some(until))
    requires tokens.idToken.Some?
    requires i < |later| && SessionRequest(config, later[i]) && later[i].Now() < until
    requires SessionRenewal.NoneBringsToken(config, Step(config, jar, login), later, until, i)
    ensures SessionRenewal.Sends(config, JarAt(config, Step(config, jar, login), later, i), later[i],
                                 tokens.idToken.value)
  {
    hide LogsIn;
    hide Step;
    hide ValidConfig;
    hide Content;
    hide SessionRequest;
    hide SessionRenewal.NoneBringsToken;
    hide SessionRenewal.Sends;
    LoginLeaves(config, jar, login, tokens, user, Some(until));
    var start := Step(config, jar, login);
    SessionRenewal.StillKeeps(config, start, later, tokens.idToken.value, until, i);
    SessionRenewal.KeptTokenIsSent(config, JarAt(config, start, later, i), later[i], tokens.idToken.value, until);
  }
}
