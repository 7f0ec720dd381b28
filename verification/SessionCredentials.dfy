/** The credentials an OpenID session records, and the token it stores next to them. */
module SessionCredentials {
  import opened Wrappers
  import opened Text
  import opened SecurityCookie
  import opened Exchange
  import opened CookieSplitter
  import opened AuthContext
  import opened SessionMachine
  import opened SessionRequests
  import opened SessionAccess
  import AuthHandler
  import OpenIdAuth
  import OpenIdRoutes

  // ---- what one event does to both -----------------------------------------------

  /** The renewal an accepted session gets while the authentication handler validates it. */
  function RenewalFor(config: Config, jar: Jar, answers: Answers): Option<TokenResponse> {
    var cookie := Open(jar).Session(answers.now);
    if cookie.None? then None else OpenIdAuth.Renewal(config, cookie.value, Open(jar), answers)
  }

  function RenewedCredentials(config: Config, tokens: TokenResponse, now: Time): Credentials
    requires OpenIdAuth.GetExpirationDate(tokens, now, config.claimOf).Some?
  {
    Credentials(None, true, tokens.refreshToken, OpenIdAuth.GetExpirationDate(tokens, now, config.claimOf).value)
  }

  lemma RenewalIsUsable(config: Config, jar: Jar, answers: Answers)
    ensures var renewal := RenewalFor(config, jar, answers);
            renewal.Some? ==>
              && renewal.value.idToken.Some?
              && OpenIdAuth.GetExpirationDate(renewal.value, answers.now, config.claimOf).Some?
  {
    hide OpenIdAuth.GetExpirationDate;
  }

  /** What the authentication handler leaves of the session cookie and writes to the split ones. */
  ghost predicate Leaves(config: Config, jar: Jar, request: Request, answers: Answers,
                         after: Option<Cookie>, effect: SplitEffect) {
    if OwnCredentialsAccepted(config, request, answers) then
      && after.Some? && after.value.credentials == Some(Credentials(None, true, None, None))
      && effect == Wrote(OrEmpty(Lookup(request.headers, "authorization")))
    else if AuthHandler.AuthNotRequired(config, request) || AuthHandler.RequestIncludesAuthInfo(config, request) then
      after == jar.main && effect == Kept
    else if !SessionAccepted(config, jar, answers) then after == None && effect == Kept
    else
      var renewal := RenewalFor(config, jar, answers);
      if renewal.None? then
        && effect == Kept
        && (after.Some? ==> after.value.credentials == jar.main.value.credentials)
      else
        && renewal.value.idToken.Some?
        && OpenIdAuth.GetExpirationDate(renewal.value, answers.now, config.claimOf).Some?
        && effect == Wrote("Bearer " + renewal.value.idToken.value)
        && (after.Some? ==>
              after.value.credentials ==
              if StoresSession(config, jar, request, answers)
              then Some(RenewedCredentials(config, renewal.value, answers.now))
              else jar.main.value.credentials)
  }

  lemma CredentialsLeaveBoth(config: Config, jar: Jar, request: Request, answers: Answers)
    requires config.kind.OpenId?
    requires !AuthHandler.AuthNotRequired(config, request) && AuthHandler.RequestIncludesAuthInfo(config, request)
    ensures Leaves(config, jar, request, answers,
                   MainAfter(AuthHandler.HandleCredentials(config, request, Open(jar), answers).view),
                   BrowseEffect(config, jar, request, answers))
  {
    hide AuthHandler.HandleCredentials;
    hide AuthHandler.AuthNotRequired;
    CredentialsLeave(config, jar, request, answers);
  }

  lemma SessionLeavesBoth(config: Config, jar: Jar, request: Request, answers: Answers)
    requires config.kind.OpenId?
    requires !AuthHandler.AuthNotRequired(config, request) && !AuthHandler.RequestIncludesAuthInfo(config, request)
    ensures Leaves(config, jar, request, answers,
                   MainAfter(AuthHandler.HandleSession(config, request, Open(jar), answers).view),
                   BrowseEffect(config, jar, request, answers))
  {
    hide AuthHandler.HandleSession;
    hide AuthHandler.AuthNotRequired;
    hide AuthHandler.RequestIncludesAuthInfo;
    hide OpenIdAuth.Renewal;
    hide OpenIdAuth.GetExpirationDate;
    hide StoresSession;
    RenewalIsUsable(config, jar, answers);
    SessionLeaves(config, jar, request, answers);
  }

  lemma AuthLeaves(config: Config, jar: Jar, event: Event)
    requires config.kind.OpenId? && event.NeedsAuth()
    ensures Leaves(config, jar, event.request, event.answers, MainAfter(AuthView(config, Open(jar), event).view),
                   BrowseEffect(config, jar, event.request, event.answers))
  {
    hide AuthHandler.HandleSession;
    hide AuthHandler.HandleCredentials;
    if AuthHandler.AuthNotRequired(config, event.request) {
    } else if AuthHandler.RequestIncludesAuthInfo(config, event.request) {
      CredentialsLeaveBoth(config, jar, event.request, event.answers);
    } else {
      SessionLeavesBoth(config, jar, event.request, event.answers);
    }
  }

  // ---- the recorded expiry ------------------------------------------------------------

  /** When the stored token expires, if it is a token that says so. */
  function TokenExpiry(config: Config, content: string): Option<Time> {
    if !("Bearer " <= content) then None
    else
      var expiry := OpenIdAuth.GetExpirationDate(TokenResponse(Some(content[7..]), None, None), 0.0, config.claimOf);
      if expiry.Some? then expiry.value else None
  }

  /** The expiry recorded is not another token's than this one. */
  predicate Fits(config: Config, expiry: Option<Time>, content: string) {
    expiry.Some? && TokenExpiry(config, content).Some? ==> expiry == TokenExpiry(config, content)
  }

  /** The invariant: a recorded expiry is the stored token's. */
  ghost predicate Belongs(config: Config, jar: Jar) {
    HasCredentials(jar.main) && Content(config, jar).Some? ==>
      Fits(config, jar.main.value.credentials.value.expiryTime, Content(config, jar).value)
  }

  /** A token response with an identity token expires when that token says. */
  lemma ResponseFits(config: Config, tokens: TokenResponse, now: Time)
    requires OpenIdAuth.GetExpirationDate(tokens, now, config.claimOf).Some?
    ensures Fits(config, OpenIdAuth.GetExpirationDate(tokens, now, config.claimOf).value, OpenIdRoutes.BearerOf(tokens))
  {
    hide Split;
    assert OpenIdRoutes.BearerOf(tokens)[7..] == if tokens.idToken.Some? then tokens.idToken.value else "undefined";
    if tokens.idToken.None? {
      SplitOfFree("undefined", {'.'});
    }
  }

  /** The token this event writes next to the credentials that came in: an answered switch that
      stored its own or a renewed one, or a renewal whose session cookie is not stored. */
  predicate TokenNextToOldCredentials(config: Config, jar: Jar, event: Event) {
    && event.NeedsAuth()
    && EffectOf(config, jar, event).Wrote?
    && if event.SwitchTenant? && Observe(config, jar, event).Ok? then true
       else
         && !OwnCredentialsAccepted(config, event.request, event.answers)
         && !StoresSession(config, jar, event.request, event.answers)
  }

  /** Every event keeps the recorded expiry with its token, but for one that leaves a session
      whose old credentials do not fit the token just written. */
  lemma StepBelongsIff(config: Config, jar: Jar, event: Event)
    requires ValidConfig(config) && config.kind.OpenId? && Belongs(config, jar)
    ensures Belongs(config, Step(config, jar, event)) <==>
            (TokenNextToOldCredentials(config, jar, event) && HasCredentials(Step(config, jar, event).main)
             && HasCredentials(jar.main) ==>
               Fits(config, jar.main.value.credentials.value.expiryTime, EffectOf(config, jar, event).content))
  {
    if event.NeedsAuth() {
      AuthBelongsIff(config, jar, event);
    } else {
      OtherBelongs(config, jar, event);
    }
  }

  lemma AuthBelongsIff(config: Config, jar: Jar, event: Event)
    requires ValidConfig(config) && config.kind.OpenId? && event.NeedsAuth() && Belongs(config, jar)
    ensures Belongs(config, Step(config, jar, event)) <==>
            (TokenNextToOldCredentials(config, jar, event) && HasCredentials(Step(config, jar, event).main)
             && HasCredentials(jar.main) ==>
               Fits(config, jar.main.value.credentials.value.expiryTime, EffectOf(config, jar, event).content))
  {
    hide AuthHandler.Handle;
    hide AuthHandler.AuthNotRequired;
    hide AuthHandler.RequestIncludesAuthInfo;
    hide OwnCredentialsAccepted;
    hide SessionAccepted;
    hide StoresSession;
    hide BrowseEffect;
    hide Content;
    hide RenewalFor;
    hide TokenExpiry;
    hide OpenIdAuth.GetExpirationDate;
    hide Step;
    hide Observe;
    hide ValidConfig;
    AuthLeaves(config, jar, event);
    CookieBehindAuth(config, jar, event);
    if !EffectOf(config, jar, event).WroteThenEmptied? {
      StepKeepsStore(config, jar, event);
    }
    if !HasCredentials(jar.main) {
      NoCredentialsNoSession(config, jar, event.answers);
    }
    var renewal := RenewalFor(config, jar, event.answers);
    if renewal.Some? && OpenIdAuth.GetExpirationDate(renewal.value, event.Now(), config.claimOf).Some? {
      ResponseFits(config, renewal.value, event.Now());
      assert renewal.value.idToken.Some? ==>
          OpenIdRoutes.BearerOf(renewal.value) == "Bearer " + renewal.value.idToken.value;
    }
  }

  /** A completed login records the expiry of the token it stores. */
  lemma LoginFits(config: Config, jar: Jar, event: Event)
    requires config.kind.OpenId? && event.OpenIdLogin?
    requires OpenIdRoutes.HandleLogin(config, event.query, Open(jar), event.login).outcome.Established?
    ensures var grant := OpenIdRoutes.Redeem(config, event.query.code.value, event.login);
            && grant.Answer?
            && EffectOf(config, jar, event) == Wrote(grant.value.bearer)
            && Step(config, jar, event).main == Some(grant.value.session)
            && grant.value.session.credentials.Some?
            && Fits(config, grant.value.session.credentials.value.expiryTime, grant.value.bearer)
  {
    hide TokenExpiry;
    hide OpenIdAuth.GetExpirationDate;
    hide OpenIdRoutes.BearerOf;
    hide WriteFirst;
    var tokens := event.login.exchangeCode(event.query.code.value);
    if tokens.Answer? && OpenIdAuth.GetExpirationDate(tokens.value, event.login.now, config.claimOf).Some? {
      ResponseFits(config, tokens.value, event.login.now);
    }
  }

  lemma OtherBelongs(config: Config, jar: Jar, event: Event)
    requires ValidConfig(config) && config.kind.OpenId? && !event.NeedsAuth() && Belongs(config, jar)
    ensures Belongs(config, Step(config, jar, event))
  {
    hide Content;
    hide ValidConfig;
    hide TokenExpiry;
    hide OpenIdAuth.GetExpirationDate;
    hide OpenIdRoutes.HandleLogin;
    hide OpenIdRoutes.Redeem;
    StepKeepsStore(config, jar, event);
    if event.OpenIdLogin? {
      CookieAfterLogin(config, jar, event);
      if OpenIdRoutes.HandleLogin(config, event.query, Open(jar), event.login).outcome.Established? {
        LoginFits(config, jar, event);
      }
    }
  }

  /** An answered switch whose own request renewed the session loses the renewed credentials,
      keep-alive or not: the route stores the cookie it received. */
  lemma SwitchLosesRenewal(config: Config, jar: Jar, event: Event)
    requires ValidConfig(config) && config.kind.OpenId? && event.SwitchTenant? && JudgedBySession(config, event)
    requires Observe(config, jar, event).Ok? && RenewalFor(config, jar, event.answers).Some?
    ensures jar.main.Some? && RenewalFor(config, jar, event.answers).value.idToken.Some?
    ensures var after := Step(config, jar, event);
            && after.main == Some(jar.main.value.(tenant := Some(event.tenant)))
            && Content(config, after) == Some("Bearer " + RenewalFor(config, jar, event.answers).value.idToken.value)
  {
    hide AuthHandler.Handle;
    hide AuthHandler.AuthNotRequired;
    hide AuthHandler.RequestIncludesAuthInfo;
    hide BrowseEffect;
    hide Content;
    hide OpenIdAuth.GetExpirationDate;
    hide StoresSession;
    hide Step;
    hide Observe;
    hide ValidConfig;
    AuthLeaves(config, jar, event);
    CookieBehindAuth(config, jar, event);
    StepKeepsStore(config, jar, event);
  }

  ghost predicate TokensFit(config: Config, jar: Jar, events: seq<Event>) {
    forall k :: 0 <= k < |events| && TokenNextToOldCredentials(config, JarAt(config, jar, events, k), events[k])
                && HasCredentials(JarAt(config, jar, events, k).main) ==>
                  Fits(config, JarAt(config, jar, events, k).main.value.credentials.value.expiryTime,
                       EffectOf(config, JarAt(config, jar, events, k), events[k]).content)
  }

  /** Main result: in every run that starts without a session, the expiry the session cookie
      records is that of the token in the split cookies, provided no switch or renewal leaves a
      token next to old credentials it does not fit. */
  lemma {:induction false} RecordedExpiryBelongsToToken(config: Config, jar: Jar, events: seq<Event>, i: nat)
    requires ValidConfig(config) && config.kind.OpenId? && !HasCredentials(jar.main)
    requires TokensFit(config, jar, events) && i <= |events|
    ensures Belongs(config, JarAt(config, jar, events, i))
  {
    hide Step;
    hide Belongs;
    hide Fits;
    hide TokenNextToOldCredentials;
    hide ValidConfig;
    if i == 0 {
      NoCredentialsBelong(config, jar);
    } else {
      RecordedExpiryBelongsToToken(config, jar, events, i - 1);
      StepBelongsIff(config, JarAt(config, jar, events, i - 1), events[i - 1]);
    }
  }

  lemma NoCredentialsBelong(config: Config, jar: Jar)
    requires !HasCredentials(jar.main)
    ensures Belongs(config, jar)
  {
  }
}
