/** A token session never outlives its token. */
module SessionExpiry {
  import opened Wrappers
  import opened SecurityCookie
  import opened Exchange
  import opened CookieSplitter
  import opened AuthContext
  import opened SessionMachine
  import opened SessionRequests
  import AuthHandler
  import JwtAuth

  /** The deadline of the token the browser's split cookies hold. */
  function StoredDeadline(config: Config, jar: Jar): Option<Time> {
    var content := Content(config, jar);
    if content.Some? then JwtAuth.TokenDeadline(content.value, config.claimOf) else None
  }

  ghost predicate ExpiryBounded(config: Config, main: Option<Cookie>, deadline: Option<Time>, now: Time) {
    main.Some? ==>
      && HasExtra(main.value)
      && main.value.expiryTime.Some?
      && main.value.expiryTime.value <= now + config.ttl
      && (deadline.Some? ==> main.value.expiryTime.value <= deadline.value)
  }

  /** The invariant: a stored session expires no later than its token, and no later
      than one time-to-live from now. */
  ghost predicate WithinToken(config: Config, jar: Jar, now: Time) {
    ExpiryBounded(config, jar.main, StoredDeadline(config, jar), now)
  }

  /** A token deployment whose keep-alive, if it is on, reads the header that a session's
      token is rebuilt under. Where it reads another one the bound fails. */
  ghost predicate JwtConfig(config: Config) {
    && ValidConfig(config) && config.kind.Jwt?
    && (config.kind.headerName == "authorization" || !config.keepalive)
  }

  /** Choosing a tenant changes nothing else about the session. */
  lemma SettleChangesTenantOnly(config: Config, request: Request, v: View, cookie: Cookie, headers: Headers,
                                authInfo: Option<AuthInfo>, answers: Answers)
    requires MainAfter(v) == Some(cookie)
    ensures var after := MainAfter(AuthHandler.Settle(config, request, v, cookie, headers, authInfo, answers).view);
            after.Some? ==> after.value.(tenant := cookie.tenant) == cookie
  {
    hide AuthHandler.ResolveTenant;
  }

  lemma CredentialsBounded(config: Config, jar: Jar, request: Request, answers: Answers)
    requires JwtConfig(config) && WithinToken(config, jar, answers.now)
    requires JwtAuth.RequestIncludesAuthInfo(config.kind, request)
    requires answers.authinfo(JwtAuth.GetAdditionalAuthHeader(config.kind, request)).Some?
    ensures var after := MainAfter(AuthHandler.HandleCredentials(config, request, Open(jar), answers).view);
            var bearer := JwtAuth.GetBearerToken(config.kind, request);
            && bearer.Some?
            && ExpiryBounded(config, after, JwtAuth.TokenDeadline(bearer.value, config.claimOf), answers.now)
  {
    hide AuthHandler.Settle;
    hide JwtAuth.ClaimOf;
    var user := answers.authinfo(AuthHandler.GetAdditionalAuthHeader(config, request));
    var bearer := JwtAuth.GetBearerToken(config.kind, request);
    JwtAuth.ExpiryWithinDeadline(bearer, answers.now + config.ttl, config.claimOf);
    var prepared := AuthHandler.PrepareCredentials(config, request, Open(jar), user.value.userName, answers.now);
    if prepared.Some? {
      var p := prepared.value;
      SettleChangesTenantOnly(config, request, p.view, p.cookie, p.headers, user, answers);
    }
  }

  lemma SessionBounded(config: Config, jar: Jar, request: Request, answers: Answers)
    requires JwtConfig(config) && WithinToken(config, jar, answers.now)
    ensures ExpiryBounded(config,
                          MainAfter(AuthHandler.HandleSession(config, request, Open(jar), answers).view),
                          StoredDeadline(config, jar), answers.now)
  {
    assert JwtAuth.TokenDeadline("", config.claimOf).None?;
    hide AuthHandler.Settle;
    hide JwtAuth.ClaimOf;
    var v := Open(jar);
    if v.Session(answers.now).Some? && JwtAuth.IsValidCookie(config, jar.main.value, v) {
      var token := ExtraValue(config, jar.main.value, v);
      assert Lookup(AuthHandler.BuildAuthHeaderFromCookie(config, jar.main.value, v), "authorization") == Some(token);
      JwtAuth.ExpiryWithinDeadline(Some(token), answers.now + config.ttl, config.claimOf);
      var check := AuthHandler.Check(config, jar.main.value, v, answers);
      var prepared := AuthHandler.PrepareSession(config, request, check, answers.now);
      if prepared.Some? {
        var p := prepared.value;
        SettleChangesTenantOnly(config, request, p.view, p.cookie, p.headers, None, answers);
      }
    }
  }

  lemma AuthWithinToken(config: Config, jar: Jar, event: Event)
    requires JwtConfig(config) && event.NeedsAuth()
    requires WithinToken(config, jar, event.Now())
    ensures var effect := BrowseEffect(config, jar, event.request, event.answers);
            ExpiryBounded(config, MainAfter(AuthView(config, Open(jar), event).view),
                          StoredDeadlineAfter(config, jar, effect), event.Now())
  {
    hide AuthHandler.HandleSession;
    hide AuthHandler.HandleCredentials;
    hide JwtAuth.TokenDeadline;
    var request, answers := event.request, event.answers;
    if !AuthHandler.AuthNotRequired(config, request) {
      if AuthHandler.RequestIncludesAuthInfo(config, request) {
        if answers.authinfo(AuthHandler.GetAdditionalAuthHeader(config, request)).Some? {
          CredentialsBounded(config, jar, request, answers);
        } else {
          RejectedCredentialsChangeNothing(config, jar, request, answers);
        }
      } else {
        SessionBounded(config, jar, request, answers);
      }
    }
  }

  /** The deadline of what the split cookies hold after a request. */
  function StoredDeadlineAfter(config: Config, jar: Jar, effect: SplitEffect): Option<Time> {
    var content := ContentAfter(config, jar, effect);
    if content.Some? then JwtAuth.TokenDeadline(content.value, config.claimOf) else None
  }

  lemma RejectedCredentialsChangeNothing(config: Config, jar: Jar, request: Request, answers: Answers)
    ensures answers.authinfo(AuthHandler.GetAdditionalAuthHeader(config, request)).None? ==>
              AuthHandler.HandleCredentials(config, request, Open(jar), answers)
              == AuthHandler.Result(AuthHandler.Unauthorized, Open(jar))
  {
  }

  /** An answered tenant switch that brought a new token: the route stores the session cookie
      that came in, next to the new token. */
  predicate PutsTokenNextToOldCookie(config: Config, jar: Jar, event: Event)
    requires config.kind.Jwt?
  {
    && event.SwitchTenant?
    && JwtAuth.RequestIncludesAuthInfo(config.kind, event.request)
    && !AuthHandler.AuthNotRequired(config, event.request)
    && Observe(config, jar, event).Ok?
  }

  /** The cookie that came in expires by the deadline of the token the request brings. */
  predicate OldCookieFitsToken(config: Config, jar: Jar, request: Request)
    requires config.kind.Jwt?
  {
    var deadline := JwtAuth.TokenDeadline(OrEmpty(JwtAuth.GetBearerToken(config.kind, request)), config.claimOf);
    jar.main.Some? && jar.main.value.expiryTime.Some? && deadline.Some? ==>
      jar.main.value.expiryTime.value <= deadline.value
  }

  lemma SwitchStoresReceivedCookie(config: Config, jar: Jar, event: Event)
    requires config.kind.Jwt?
    requires PutsTokenNextToOldCookie(config, jar, event)
    ensures jar.main.Some? && Step(config, jar, event).main == Some(jar.main.value.(tenant := Some(event.tenant)))
    ensures var bearer := JwtAuth.GetBearerToken(config.kind, event.request);
            bearer.Some? && BrowseEffect(config, jar, event.request, event.answers) == Wrote(bearer.value)
  {
    BrowseHasEffect(config, jar, event.request, event.answers);
    assert AuthView(config, Open(jar), event).view.jar == jar;
    RejectedCredentialsChangeNothing(config, jar, event.request, event.answers);
    hide AuthHandler.HandleCredentials;
    hide AuthHandler.HandleSession;
    hide HasEffect;
  }

  /** What such a switch does to the bound: the old session's expiry stands next to the new
      token, so it holds exactly if the old expiry already respects the new token's deadline. */
  lemma SwitchWithOwnTokenIff(config: Config, jar: Jar, event: Event)
    requires JwtConfig(config)
    requires WithinToken(config, jar, event.Now())
    requires PutsTokenNextToOldCookie(config, jar, event)
    ensures WithinToken(config, Step(config, jar, event), event.Now()) <==>
            OldCookieFitsToken(config, jar, event.request)
  {
    JwtEffects(config, jar, event);
    SwitchStoresReceivedCookie(config, jar, event);
    StepKeepsStore(config, jar, event);
    hide AuthHandler.Handle;
    hide JwtAuth.TokenDeadline;
    hide EffectOf;
    hide BrowseEffect;
    hide Step;
    hide Content;
  }

  /** Any other switch leaves the session cookie as the authentication handler does, or as it
      came in when the handler was not involved. */
  lemma SwitchWithinToken(config: Config, jar: Jar, event: Event)
    requires JwtConfig(config) && event.SwitchTenant? && !PutsTokenNextToOldCookie(config, jar, event)
    requires WithinToken(config, jar, event.Now())
    ensures var effect := BrowseEffect(config, jar, event.request, event.answers);
            ExpiryBounded(config, Step(config, jar, event).main, StoredDeadlineAfter(config, jar, effect), event.Now())
  {
    AuthWithinToken(config, jar, event);
    CookieBehindAuth(config, jar, event);
    hide AuthHandler.Handle;
    hide JwtAuth.TokenDeadline;
    hide Content;
    hide Step;
    hide Observe;
  }

  /** Every step keeps the bound, but for a switch that puts a new token next to an old cookie
      that outlives it. */
  lemma StepWithinTokenIff(config: Config, jar: Jar, event: Event)
    requires JwtConfig(config)
    requires WithinToken(config, jar, event.Now())
    ensures WithinToken(config, Step(config, jar, event), event.Now()) <==>
            (PutsTokenNextToOldCookie(config, jar, event) ==> OldCookieFitsToken(config, jar, event.request))
  {
    if PutsTokenNextToOldCookie(config, jar, event) {
      SwitchWithOwnTokenIff(config, jar, event);
    } else {
      JwtEffects(config, jar, event);
      StepKeepsStore(config, jar, event);
      if event.SwitchTenant? {
        SwitchWithinToken(config, jar, event);
      } else if event.Browse? {
        AuthWithinToken(config, jar, event);
      }
    }
    hide AuthHandler.Handle;
    hide JwtAuth.TokenDeadline;
    hide BrowseEffect;
    hide EffectOf;
    hide Content;
    hide PutsTokenNextToOldCookie;
    hide OldCookieFitsToken;
  }

  /** A token configuration routes only these four kinds of request. */
  lemma JwtEffects(config: Config, jar: Jar, event: Event)
    requires config.kind.Jwt?
    ensures EffectOf(config, jar, event) ==
            if event.Browse? || event.SwitchTenant? then BrowseEffect(config, jar, event.request, event.answers)
            else if event.JwtLogout? then Emptied else Kept
    ensures !EffectOf(config, jar, event).WroteThenEmptied?
    ensures event.JwtLogout? ==> Step(config, jar, event).main == None
    ensures !event.Browse? && !event.SwitchTenant? && !event.JwtLogout? ==> Step(config, jar, event).main == jar.main
  {
    hide AuthHandler.Handle;
  }

  /** What the slide does to the bound, for any header name: an accepted session stays within
      its token if and only if keep-alive is off, or reads the header the token is rebuilt
      under, or the time-to-live ends before the token does. */
  lemma SlideWithinTokenIff(config: Config, jar: Jar, event: Event)
    requires ValidConfig(config) && config.kind.Jwt? && SessionRequest(config, event)
    requires WithinToken(config, jar, event.Now())
    requires SessionHeaders(config, jar, event.request, event.answers).Some?
    ensures WithinToken(config, Step(config, jar, event), event.Now()) <==>
            || !config.keepalive
            || config.kind.headerName == "authorization"
            || StoredDeadline(config, jar).None?
            || event.Now() + config.ttl <= StoredDeadline(config, jar).value
  {
    hide Step;
    hide EffectOf;
    hide AuthHandler.HandleSession;
    hide JwtAuth.TokenDeadline;
    hide Content;
    hide BrowseEffect;
    hide SessionHeaders;
    hide Validate;
    JwtEffects(config, jar, event);
    SessionKeepsStore(config, jar, event);
    StepKeepsStore(config, jar, event);
    SlidExpiry(config, jar, event.request, event.answers);
    SessionStep(config, jar, event);
  }

  lemma SessionKeepsStore(config: Config, jar: Jar, event: Event)
    requires config.kind.Jwt? && SessionRequest(config, event)
    ensures BrowseEffect(config, jar, event.request, event.answers) == Kept
  {
    hide AuthHandler.RequestIncludesAuthInfo;
    hide AuthHandler.AuthNotRequired;
  }

  lemma SessionStep(config: Config, jar: Jar, event: Event)
    requires SessionRequest(config, event)
    ensures Step(config, jar, event).main
         == MainAfter(AuthHandler.HandleSession(config, event.request, Open(jar), event.answers).view)
  {
    hide AuthHandler.HandleSession;
    hide AuthHandler.HandleCredentials;
  }

  /** The expiry an accepted session is left with. */
  lemma SlidExpiry(config: Config, jar: Jar, request: Request, answers: Answers)
    requires config.kind.Jwt? && SessionHeaders(config, jar, request, answers).Some?
    requires jar.main.Some? ==> HasExtra(jar.main.value)
    ensures jar.main.Some?
    ensures var after := MainAfter(AuthHandler.HandleSession(config, request, Open(jar), answers).view);
            && after.Some? && HasExtra(after.value)
            && if !config.keepalive then after.value.expiryTime == jar.main.value.expiryTime
               else
                 && after.value.expiryTime.Some?
                 && after.value.expiryTime.value <= answers.now + config.ttl
                 && (StoredDeadline(config, jar).Some? ==>
                       var deadline := StoredDeadline(config, jar).value;
                       after.value.expiryTime.value <= deadline <==>
                       config.kind.headerName == "authorization" || answers.now + config.ttl <= deadline)
  {
    hide AuthHandler.Settle;
    hide JwtAuth.GetExpirationDate;
    hide JwtAuth.ClaimOf;
    hide AuthHandler.GetAdditionalAuthHeader;
    hide StoredValue;
    var v, cookie := Open(jar), jar.main.value;
    var check := AuthHandler.Check(config, cookie, v, answers);
    var p := AuthHandler.PrepareSession(config, request, check, answers.now).value;
    SlideHonoursDeadlineIff(config, cookie, v, answers.now);
    SettleChangesTenantOnly(config, request, p.view, p.cookie, p.headers, None, answers);
    SettleKeepsKnownUser(config, request, p.view, p.cookie, p.headers, answers);
  }

  lemma SlideHonoursDeadlineIff(config: Config, cookie: Cookie, v: View, now: Time)
    requires config.kind.Jwt? && HasExtra(cookie)
    ensures var expiry := JwtAuth.GetKeepAliveExpiry(config, cookie, v, now);
            var stored := StoredValue(v, config.storage);
            expiry.Some? ==>
              && expiry.value <= now + config.ttl
              && (stored.Some? && JwtAuth.TokenDeadline(stored.value, config.claimOf).Some? ==>
                    var deadline := JwtAuth.TokenDeadline(stored.value, config.claimOf).value;
                    expiry.value <= deadline <==>
                    config.kind.headerName == "authorization" || now + config.ttl <= deadline)
  {
    hide JwtAuth.ClaimOf;
    hide StoredValue;
    var stored := StoredValue(v, config.storage);
    if stored.Some? && JwtAuth.TokenDeadline(stored.value, config.claimOf).Some? {
      JwtAuth.KeepAliveHonoursDeadlineIff(config, cookie, v, now,
                                          JwtAuth.TokenDeadline(stored.value, config.claimOf).value);
    }
  }

  lemma SettleKeepsKnownUser(config: Config, request: Request, v: View, cookie: Cookie, headers: Headers,
                             answers: Answers)
    requires answers.authinfo(headers).Some? && MainAfter(v).Some?
    ensures MainAfter(AuthHandler.Settle(config, request, v, cookie, headers, None, answers).view).Some?
  {
    hide TenantFor;
    SettleByTenant(config, request, v, cookie, headers, None, answers);
  }

  /** Every tenant switch that brings a token of its own fits the cookie it stores. */
  ghost predicate SwitchesFit(config: Config, jar: Jar, events: seq<Event>)
    requires config.kind.Jwt?
  {
    forall k :: 0 <= k < |events| && PutsTokenNextToOldCookie(config, JarAt(config, jar, events, k), events[k]) ==>
                  OldCookieFitsToken(config, JarAt(config, jar, events, k), events[k].request)
  }

  /** Main result: in every run that starts without a session, under any number of keep-alives,
      logins, tenant switches and logouts, the session in the jar expires no later than the
      token in the split cookies says, and no later than the last request plus the time-to-live,
      provided no answered switch puts a new token next to a cookie that outlives it, and
      keep-alive is off or the configured header is `authorization`, as `JwtConfig` asks. */
  lemma {:induction false} SessionNeverOutlivesToken(config: Config, jar: Jar, events: seq<Event>, i: nat)
    requires JwtConfig(config) && jar.main == None
    requires Chronological(events) && SwitchesFit(config, jar, events) && i < |events|
    ensures WithinToken(config, JarAt(config, jar, events, i + 1), events[i].Now())
  {
    hide Step;
    hide StoredDeadline;
    hide PutsTokenNextToOldCookie;
    hide OldCookieFitsToken;
    if i == 0 {
    } else {
      SessionNeverOutlivesToken(config, jar, events, i - 1);
    }
    StepWithinTokenIff(config, JarAt(config, jar, events, i), events[i]);
  }
}
