/** How the authentication handler answers what it does not let in, and that no route behind it
    runs for such a request. */
module SessionRejections {
  import opened Wrappers
  import opened SecurityCookie
  import opened Exchange
  import opened AuthContext
  import opened SessionMachine
  import opened SessionRequests
  import opened SessionAccess
  import AuthHandler

  // ---- by pathname ---------------------------------------------------------------------

  /** Nobody needs to log in here. */
  predicate OpenPath(config: Config, path: string) {
    path != "" && (path == "/app/login" || path in config.unauthenticatedRoutes)
  }

  predicate BundlePath(path: string) {
    "/bundles/" <= path
  }

  predicate OptionalPath(path: string) {
    path == "/api/core/capabilities"
  }

  /** Where a browser, not a script, is waiting for the answer. */
  predicate PagePath(path: string) {
    path == "" || path == "/" || "/app/" <= path || "/goto/" <= path
  }

  /** The request carries a header or a url parameter to authenticate by. */
  predicate Brings(config: Config, request: Request) {
    match config.kind
    case Jwt(headerName, urlParam) =>
      || Truthy(Lookup(request.headers, headerName))
      || (urlParam != "" && Truthy(Lookup(request.query, urlParam)))
    case OpenId(_, _, _) => Truthy(Lookup(request.headers, "authorization"))
  }

  lemma PathsAreThese(config: Config, request: Request)
    ensures AuthHandler.AuthNotRequired(config, request) <==> OpenPath(config, request.pathname)
    ensures AuthHandler.AuthOptional(request) <==> OptionalPath(request.pathname)
    ensures AuthHandler.IsBundle(request) <==> BundlePath(request.pathname)
    ensures AuthHandler.IsPageRequest(request) <==> PagePath(request.pathname)
    ensures AuthHandler.RequestIncludesAuthInfo(config, request) <==> Brings(config, request)
  {
    assert AuthHandler.ROUTES_TO_IGNORE == ["/app/login"];
    assert AuthHandler.ROUTES_AUTH_OPTIONAL == ["/api/core/capabilities"];
    assert !("/bundles/" <= "/") && !("/goto/" <= "/") && !("/app/" <= "/");
  }

  /** The answer to a request turned away for want of a login: pages are redirected to it where
      there is one to redirect to. */
  function TurnedAway(config: Config, path: string): AuthHandler.Outcome {
    if config.kind.OpenId? && PagePath(path) then AuthHandler.RedirectedToLogin else AuthHandler.Unauthorized
  }

  // ---- the answers -----------------------------------------------------------------------

  ghost predicate OpenAnswer(config: Config, jar: Jar, request: Request, r: AuthHandler.Result) {
    OpenPath(config, request.pathname) ==> r == AuthHandler.Result(AuthHandler.PassedThrough, Open(jar))
  }

  /** Credentials the backend does not know, or whose token cannot be read. */
  ghost predicate RefusedAnswer(config: Config, request: Request, answers: Answers, outcome: AuthHandler.Outcome) {
    !OpenPath(config, request.pathname) && Brings(config, request)
    && CredentialHeaders(config, request, answers).None? ==>
      outcome == AuthHandler.Unauthorized
  }

  /** No session, or one that is not accepted. */
  ghost predicate LoggedOutAnswer(config: Config, jar: Jar, request: Request, answers: Answers,
                                  outcome: AuthHandler.Outcome, after: Option<Cookie>) {
    !OpenPath(config, request.pathname) && !Brings(config, request) && !SessionAccepted(config, jar, answers) ==>
      && after == None
      && outcome == if BundlePath(request.pathname) then AuthHandler.NotHandled
                    else if OptionalPath(request.pathname) then AuthHandler.PassedThrough
                    else TurnedAway(config, request.pathname)
  }

  /** A session the plugin accepts, but whose user the backend does not know; without tenants
      the handler finds that out too late to answer it. */
  ghost predicate UnknownAnswer(config: Config, jar: Jar, request: Request, answers: Answers,
                                outcome: AuthHandler.Outcome, after: Option<Cookie>) {
    var headers := PreparedHeaders(config, jar, request, answers);
    !OpenPath(config, request.pathname) && !Brings(config, request)
    && headers.Some? && answers.authinfo(headers.value).None? ==>
      if !config.multitenancy.enabled then outcome == AuthHandler.Failed
      else if BundlePath(request.pathname) then outcome == AuthHandler.NotHandled
      else outcome == TurnedAway(config, request.pathname) && after == None
  }

  /** A session whose cookie cannot be prepared. */
  ghost predicate UnpreparedAnswer(config: Config, jar: Jar, request: Request, answers: Answers,
                                   outcome: AuthHandler.Outcome) {
    !OpenPath(config, request.pathname) && !Brings(config, request) && SessionAccepted(config, jar, answers)
    && PreparedHeaders(config, jar, request, answers).None? ==>
      outcome == AuthHandler.Failed
  }

  /** A known user for whom no tenant can be had, or the backend fails. */
  ghost predicate StuckAnswer(config: Config, jar: Jar, request: Request, answers: Answers,
                              outcome: AuthHandler.Outcome) {
    var headers := HeadersInUse(config, jar, request, answers);
    headers.Some? && !LetIn(config, jar, request, answers) ==>
      var tenant := TenantFor(config, request, Remembered(jar, answers.now), headers.value, answers);
      outcome == if config.multitenancy.enabled && tenant.None? && answers.dashboardsinfo(headers.value).Some?
      then AuthHandler.NoTenantAvailable else AuthHandler.Failed
  }

  ghost predicate AnswersByPath(config: Config, jar: Jar, request: Request, answers: Answers, r: AuthHandler.Result) {
    && OpenAnswer(config, jar, request, r)
    && RefusedAnswer(config, request, answers, r.outcome)
    && LoggedOutAnswer(config, jar, request, answers, r.outcome, MainAfter(r.view))
    && UnknownAnswer(config, jar, request, answers, r.outcome, MainAfter(r.view))
    && UnpreparedAnswer(config, jar, request, answers, r.outcome)
    && StuckAnswer(config, jar, request, answers, r.outcome)
  }

  /** How the shared part of the handler answers what it does not let in. */
  lemma SettleAnswers(config: Config, request: Request, v: View, cookie: Cookie, headers: Headers,
                      authInfo: Option<AuthInfo>, answers: Answers)
    requires authInfo.Some? ==> authInfo == answers.authinfo(headers)
    ensures var r := AuthHandler.Settle(config, request, v, cookie, headers, authInfo, answers);
            var tenant := TenantFor(config, request, cookie.tenant, headers, answers);
            && (answers.authinfo(headers).None? ==>
                  if !config.multitenancy.enabled then r.outcome == AuthHandler.Failed
                  else if BundlePath(request.pathname) then r.outcome == AuthHandler.NotHandled
                  else r.outcome == TurnedAway(config, request.pathname) && MainAfter(r.view) == None)
            && (answers.authinfo(headers).Some? && !r.outcome.Authenticated? ==>
                  r.outcome == if config.multitenancy.enabled && tenant.None? && answers.dashboardsinfo(headers).Some?
                  then AuthHandler.NoTenantAvailable else AuthHandler.Failed)
  {
    hide AuthHandler.SelectTenant;
    hide PagePath;
    hide AuthHandler.IsPageRequest;
    PathsAreThese(config, request);
  }

  lemma CredentialsAnswer(config: Config, jar: Jar, request: Request, answers: Answers)
    requires !AuthHandler.AuthNotRequired(config, request) && AuthHandler.RequestIncludesAuthInfo(config, request)
    ensures AnswersByPath(config, jar, request, answers,
                          AuthHandler.HandleCredentials(config, request, Open(jar), answers))
  {
    hide AuthHandler.Settle;
    hide AuthHandler.PrepareCredentials;
    hide AuthHandler.NewCookie;
    hide AuthHandler.StoreToken;
    hide AuthHandler.GetAdditionalAuthHeader;
    hide AuthHandler.RequestIncludesAuthInfo;
    hide AuthHandler.AuthNotRequired;
    hide AuthHandler.IsPageRequest;
    hide AuthHandler.IsBundle;
    hide AuthHandler.AuthOptional;
    hide OpenPath;
    hide Brings;
    hide PagePath;
    hide TenantFor;
    hide SessionHeaders;
    hide Remembered;
    PathsAreThese(config, request);
    CredentialsLetIn(config, jar, request, answers);
    var user := answers.authinfo(AuthHandler.GetAdditionalAuthHeader(config, request));
    if user.Some? {
      MintedCookie(config, jar, request, user.value.userName, answers.now);
      var prepared := AuthHandler.PrepareCredentials(config, request, Open(jar), user.value.userName, answers.now);
      if prepared.Some? {
        SettleAnswers(config, request, prepared.value.view, prepared.value.cookie, prepared.value.headers, user,
                      answers);
      }
    }
  }

  lemma SessionAnswers(config: Config, jar: Jar, request: Request, answers: Answers)
    requires !AuthHandler.AuthNotRequired(config, request) && !AuthHandler.RequestIncludesAuthInfo(config, request)
    ensures AnswersByPath(config, jar, request, answers,
                          AuthHandler.HandleSession(config, request, Open(jar), answers))
  {
    hide AuthHandler.Settle;
    hide AuthHandler.Check;
    hide AuthHandler.BuildAuthHeaderFromCookie;
    hide AuthHandler.GetKeepAliveExpiry;
    hide AuthHandler.GetAdditionalAuthHeader;
    hide AuthHandler.RequestIncludesAuthInfo;
    hide AuthHandler.AuthNotRequired;
    hide AuthHandler.IsPageRequest;
    hide AuthHandler.IsBundle;
    hide AuthHandler.AuthOptional;
    hide OpenPath;
    hide Brings;
    hide PagePath;
    hide TenantFor;
    hide CredentialHeaders;
    PathsAreThese(config, request);
    SessionLetIn(config, jar, request, answers);
    if SessionAccepted(config, jar, answers) {
      CheckKeepsCookie(config, jar.main.value, Open(jar), answers);
      var check := AuthHandler.Check(config, jar.main.value, Open(jar), answers);
      var prepared := AuthHandler.PrepareSession(config, request, check, answers.now);
      if prepared.Some? {
        SettleAnswers(config, request, prepared.value.view, prepared.value.cookie, prepared.value.headers, None,
                      answers);
      }
    }
  }

  /** Main result: every request that is not let in gets exactly the answer its pathname, its
      credentials and its session call for. */
  lemma AnswersAreByPath(config: Config, jar: Jar, request: Request, answers: Answers)
    ensures AnswersByPath(config, jar, request, answers, AuthHandler.Handle(config, request, Open(jar), answers))
  {
    hide AuthHandler.HandleCredentials;
    hide AuthHandler.HandleSession;
    hide SessionAccepted;
    hide PreparedHeaders;
    hide CredentialHeaders;
    hide PagePath;
    if AuthHandler.AuthNotRequired(config, request) {
      PathsAreThese(config, request);
    } else if AuthHandler.RequestIncludesAuthInfo(config, request) {
      CredentialsAnswer(config, jar, request, answers);
    } else {
      SessionAnswers(config, jar, request, answers);
    }
  }

  /** Main result: a request passes through unauthenticated if and only if nobody needs to log
      in where it goes, or it has nothing to log in by and asks for the optional route. */
  lemma PassesThroughIff(config: Config, jar: Jar, request: Request, answers: Answers)
    ensures AuthHandler.Handle(config, request, Open(jar), answers).outcome.PassedThrough? <==>
            || OpenPath(config, request.pathname)
            || (!Brings(config, request) && !SessionAccepted(config, jar, answers)
                && request.pathname == "/api/core/capabilities")
  {
    hide AuthHandler.Handle;
    hide AuthHandler.IsPageRequest;
    hide AuthHandler.RequestIncludesAuthInfo;
    hide AuthHandler.AuthNotRequired;
    hide OpenPath;
    hide Brings;
    hide PagePath;
    hide TenantFor;
    hide SessionAccepted;
    hide CredentialHeaders;
    PathsAreThese(config, request);
    PreparedIsAccepted(config, jar, request, answers);
    AnswersAreByPath(config, jar, request, answers);
    AuthenticatedIff(config, jar, request, answers);
    hide PreparedHeaders;
    assert request.pathname == "/api/core/capabilities" ==> !BundlePath(request.pathname) by {
      assert "/api/core/capabilities"[1] != "/bundles/"[1];
    }
  }

  lemma PreparedIsAccepted(config: Config, jar: Jar, request: Request, answers: Answers)
    ensures PreparedHeaders(config, jar, request, answers).Some? ==> SessionAccepted(config, jar, answers)
  {
    hide AuthHandler.Check;
    hide AuthHandler.PrepareSession;
  }

  // ---- routes ------------------------------------------------------------------------------

  /** A request of a browser that is logged out, to a path that asks for a login. */
  predicate TurnedAwayAt(config: Config, jar: Jar, event: Event)
    requires event.NeedsAuth()
  {
    && !OpenPath(config, event.request.pathname) && !OptionalPath(event.request.pathname)
    && !Brings(config, event.request) && !SessionAccepted(config, jar, event.answers)
  }

  /** No route behind the handler runs for such a request: it is answered by the handler alone,
      and the browser is left without a session cookie. */
  lemma RejectedReachesNoRoute(config: Config, jar: Jar, event: Event)
    requires event.NeedsAuth() && Routed(config, event) && TurnedAwayAt(config, jar, event)
    ensures Observe(config, jar, event) ==
            Browsed(if BundlePath(event.request.pathname) then AuthHandler.NotHandled
                    else TurnedAway(config, event.request.pathname))
    ensures Step(config, jar, event).main == None
    ensures Step(config, jar, event).split == jar.split
  {
    hide AuthHandler.Handle;
    hide BrowseEffect;
    hide SessionAccepted;
    hide OpenPath;
    hide Brings;
    hide PagePath;
    AnswersAreByPath(config, jar, event.request, event.answers);
    RejectedWritesNothing(config, jar, event);
    BrowseHasEffect(config, jar, event.request, event.answers);
  }

  lemma RejectedWritesNothing(config: Config, jar: Jar, event: Event)
    requires event.NeedsAuth() && TurnedAwayAt(config, jar, event)
    ensures BrowseEffect(config, jar, event.request, event.answers) == Kept
  {
    hide AuthHandler.RequestIncludesAuthInfo;
    hide OpenPath;
    hide Brings;
    PathsAreThese(config, event.request);
  }

  /** Main result: a tenant switch is carried out if and only if the request is let in, or
      passes through, and has a session cookie it can read; let in without one, it is refused. */
  lemma SwitchAnsweredIff(config: Config, jar: Jar, event: Event)
    requires event.SwitchTenant?
    ensures var passes := || LetIn(config, jar, event.request, event.answers)
                          || OpenPath(config, event.request.pathname)
                          || (!Brings(config, event.request) && !SessionAccepted(config, jar, event.answers)
                              && event.request.pathname == "/api/core/capabilities");
            && (Observe(config, jar, event) == Ok <==> passes && Open(jar).Session(event.Now()).Some?)
            && (Observe(config, jar, event) == BadRequest <==> passes && Open(jar).Session(event.Now()).None?)
  {
    hide AuthHandler.Handle;
    hide BrowseEffect;
    hide SessionAccepted;
    hide OpenPath;
    hide Brings;
    hide LetIn;
    hide StatesAfter;
    PassesThroughIff(config, jar, event.request, event.answers);
    AuthenticatedIff(config, jar, event.request, event.answers);
    BrowseHasEffect(config, jar, event.request, event.answers);
  }

  /** Main result: after a logout, until an event starts a session, no tenant switch and no
      further logout reaches its route, unless it brings credentials or its path asks for none;
      each is turned away, and leaves no session cookie. */
  lemma LoggedOutReachesNoRoute(config: Config, jar: Jar, logout: Event, later: seq<Event>, i: nat)
    requires LogsOut(config, jar, logout)
    requires i < |later| && NoneStarts(config, Step(config, jar, logout), later, i)
    requires later[i].NeedsAuth() && Routed(config, later[i])
    requires var path := later[i].request.pathname;
             !OpenPath(config, path) && !OptionalPath(path) && !Brings(config, later[i].request)
    ensures var before := JarAt(config, Step(config, jar, logout), later, i);
            && Observe(config, before, later[i]) ==
               Browsed(if BundlePath(later[i].request.pathname) then AuthHandler.NotHandled
                       else TurnedAway(config, later[i].request.pathname))
            && Step(config, before, later[i]).main == None
  {
    hide Step;
    hide Observe;
    hide StartsSession;
    hide SessionAccepted;
    hide OpenPath;
    hide OptionalPath;
    hide Brings;
    LogoutAnsweredClears(config, jar, logout);
    StaysOut(config, Step(config, jar, logout), later, i);
    var before := JarAt(config, Step(config, jar, logout), later, i);
    NoCredentialsNoSession(config, before, later[i].answers);
    RejectedReachesNoRoute(config, before, later[i]);
  }
}
