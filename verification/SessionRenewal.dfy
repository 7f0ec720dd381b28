/** A renewed OpenID token is the one sent, at once and until it expires. */
module SessionRenewal {
  import opened Wrappers
  import opened SecurityCookie
  import opened Exchange
  import opened CookieSplitter
  import opened AuthContext
  import opened SessionMachine
  import opened SessionRequests
  import opened SessionAccess
  import opened SessionCredentials
  import AuthHandler
  import OpenIdAuth
  import OpenIdRoutes

  /** The renewal this request triggers, if any. */
  function RenewalBy(config: Config, jar: Jar, event: Event): Option<TokenResponse>
    requires event.Browse?
  {
    RenewalFor(config, jar, event.answers)
  }

  /** This request obtains `token`, which expires at `until`. */
  ghost predicate Renews(config: Config, jar: Jar, event: Event, token: string, until: Option<Time>) {
    && SessionRequest(config, event)
    && RenewalBy(config, jar, event).Some?
    && RenewalBy(config, jar, event).value.idToken == Some(token)
    && OpenIdAuth.GetExpirationDate(RenewalBy(config, jar, event).value, event.Now(), config.claimOf) == Some(until)
  }

  function Authorization(outcome: AuthHandler.Outcome): Option<string> {
    if outcome.Authenticated? then Lookup(outcome.headers, "authorization") else None
  }

  /** If this request is sent on, it is with this token. */
  ghost predicate Sends(config: Config, jar: Jar, event: Event, token: string) {
    event.Browse? && OutcomeOf(config, jar, event).Authenticated? ==>
      Authorization(OutcomeOf(config, jar, event)) == Some("Bearer " + token)
  }

  lemma SettleKeepsAuthorization(config: Config, request: Request, v: View, cookie: Cookie, headers: Headers,
                                 authInfo: Option<AuthInfo>, answers: Answers)
    ensures var outcome := AuthHandler.Settle(config, request, v, cookie, headers, authInfo, answers).outcome;
            outcome.Authenticated? ==> Authorization(outcome) == Lookup(headers, "authorization")
  {
    hide AuthHandler.ResolveTenant;
    assert "authorization" != "securitytenant";
  }

  /** A newly selected tenant is stored; otherwise the browser keeps what it has. */
  function StoredAfter(selected: Option<string>, cookie: Cookie, kept: Option<Cookie>): Option<Cookie> {
    if selected.Some? && selected != cookie.tenant then Some(cookie.(tenant := selected)) else kept
  }

  /** How the session cookie leaves the shared part of the handler. */
  lemma SettleStoresCookie(config: Config, request: Request, v: View, cookie: Cookie, headers: Headers,
                           authInfo: Option<AuthInfo>, answers: Answers)
    ensures var r := AuthHandler.Settle(config, request, v, cookie, headers, authInfo, answers);
            && (Respond(r.view).main == None
                || Respond(r.view).main == Respond(v).main
                || Respond(r.view).main.value.(tenant := cookie.tenant) == cookie)
            && (r.outcome.Authenticated? ==>
                  Respond(r.view).main == StoredAfter(r.outcome.selectedTenant, cookie, Respond(v).main))
  {
    hide AuthHandler.ResolveTenant;
  }

  /** Validation leaves the session cookie to the handler. */
  lemma CheckWritesStatesOnly(config: Config, cookie: Cookie, v: View, answers: Answers)
    ensures var check := OpenIdAuth.Check(config, cookie, v, answers);
            check.view.jar == v.jar && check.view.mainWrite == v.mainWrite
  {
    hide OpenIdAuth.Renewal;
  }

  /** The session branch for an OpenID configuration, seen through what validation returns. */
  lemma SessionOutcome(config: Config, jar: Jar, request: Request, answers: Answers)
    requires config.kind.OpenId? && Open(jar).Session(answers.now).Some?
    requires OpenIdAuth.Check(config, jar.main.value, Open(jar), answers).valid
    ensures var check := OpenIdAuth.Check(config, jar.main.value, Open(jar), answers);
            var r := AuthHandler.HandleSession(config, request, Open(jar), answers);
            var cookie := check.cookie.(expiryTime :=
                          if config.keepalive then Some(answers.now + config.ttl) else check.cookie.expiryTime);
            var kept := if config.keepalive then Some(cookie) else jar.main;
            && (r.outcome.Authenticated? ==>
                  && Authorization(r.outcome)
                     == Lookup(OpenIdAuth.BuildAuthHeaderFromCookie(config, check.cookie, check.view), "authorization")
                  && Respond(r.view).main == StoredAfter(r.outcome.selectedTenant, cookie, kept))
            && (Respond(r.view).main == None || Respond(r.view).main == kept
                || Respond(r.view).main.value.(tenant := cookie.tenant) == cookie)
  {
    hide AuthHandler.Settle;
    hide StoredValue;
    hide OpenIdAuth.Check;
    hide StoredAfter;
    CheckWritesStatesOnly(config, jar.main.value, Open(jar), answers);
    var check := OpenIdAuth.Check(config, jar.main.value, Open(jar), answers);
    var p := AuthHandler.PrepareSession(config, request, check, answers.now).value;
    SameStatesSameStore(config, p.view, check.view);
    SettleKeepsAuthorization(config, request, p.view, p.cookie, p.headers, None, answers);
    SettleStoresCookie(config, request, p.view, p.cookie, p.headers, None, answers);
  }

  /** The request that renews already sends the new token, whatever tokens the browser sent. */
  lemma RenewedTokenIsSentAtOnce(config: Config, jar: Jar, event: Event, token: string, until: Option<Time>)
    requires ValidConfig(config) && config.kind.OpenId? && Renews(config, jar, event, token, until)
    ensures Sends(config, jar, event, token)
  {
    hide AuthHandler.HandleSession;
    hide OpenIdAuth.Renewal;
    OpenIdAuth.RenewalIsWhatIsSent(config, jar.main.value, Open(jar), event.answers);
    SessionOutcome(config, jar, event.request, event.answers);
  }

  /** The renewed credentials reach the browser exactly when keep-alive is on or the tenant this
      request resolves to is not the one remembered; otherwise the old cookie stays, next to the
      new token. */
  lemma RenewalPersistence(config: Config, jar: Jar, event: Event, token: string, until: Option<Time>)
    requires ValidConfig(config) && config.kind.OpenId?
    requires Renews(config, jar, event, token, until)
    requires OutcomeOf(config, jar, event).Authenticated?
    ensures var renewed := Credentials(None, true, RenewalBy(config, jar, event).value.refreshToken, until);
            var after := Step(config, jar, event);
            && Content(config, after) == Some("Bearer " + token)
            && (if StoresSession(config, jar, event.request, event.answers)
                then after.main.Some? && after.main.value.credentials == Some(renewed)
                else after.main == jar.main)
  {
    hide AuthHandler.HandleSession;
    hide OpenIdAuth.Renewal;
    hide TenantFor;
    hide CredentialHeaders;
    hide AuthHandler.PrepareSession;
    StepKeepsStore(config, jar, event);
    OpenIdAuth.RenewalIsWhatIsSent(config, jar.main.value, Open(jar), event.answers);
    SessionOutcome(config, jar, event.request, event.answers);
    AuthenticatedIff(config, jar, event.request, event.answers);
  }

  // ---- whole runs --------------------------------------------------------------------

  /** A browser with a session holds this token, and its session cookie knows when it expires. */
  ghost predicate Keeps(config: Config, jar: Jar, token: string, until: Time) {
    HasCredentials(jar.main) ==>
      && Content(config, jar) == Some("Bearer " + token)
      && HasExtra(jar.main.value)
      && jar.main.value.credentials.value.expiryTime == Some(until)
  }

  /** Before the token expires there is nothing to renew. */
  lemma NothingToRenew(config: Config, jar: Jar, answers: Answers, token: string, until: Time)
    requires Keeps(config, jar, token, until) && answers.now < until
    ensures RenewalFor(config, jar, answers).None?
  {
    hide OpenIdAuth.GetExpirationDate;
    hide Content;
    hide StoredValue;
  }

  /** Unless an event brings another token, it leaves a browser that keeps this one. */
  lemma StepKeeps(config: Config, jar: Jar, event: Event, token: string, until: Time)
    requires ValidConfig(config) && config.kind.OpenId?
    requires Keeps(config, jar, token, until) && event.Now() < until && !BringsToken(config, jar, event)
    ensures Keeps(config, Step(config, jar, event), token, until)
  {
    if event.NeedsAuth() {
      AuthKeeps(config, jar, event, token, until);
    } else {
      OtherKeeps(config, jar, event, token, until);
    }
  }

  lemma AuthKeeps(config: Config, jar: Jar, event: Event, token: string, until: Time)
    requires ValidConfig(config) && config.kind.OpenId? && event.NeedsAuth()
    requires Keeps(config, jar, token, until) && event.Now() < until && !BringsToken(config, jar, event)
    ensures Keeps(config, Step(config, jar, event), token, until)
  {
    hide AuthHandler.Handle;
    hide AuthHandler.AuthNotRequired;
    hide AuthHandler.RequestIncludesAuthInfo;
    hide OwnCredentialsAccepted;
    hide SessionAccepted;
    hide BrowseEffect;
    hide Content;
    hide RenewalFor;
    hide Step;
    hide Observe;
    hide ValidConfig;
    AuthLeaves(config, jar, event);
    CookieBehindAuth(config, jar, event);
    NothingToRenew(config, jar, event.answers, token, until);
    if !HasCredentials(jar.main) {
      NoCredentialsNoSession(config, jar, event.answers);
    }
    if !EffectOf(config, jar, event).WroteThenEmptied? {
      StepKeepsStore(config, jar, event);
    }
  }

  lemma OtherKeeps(config: Config, jar: Jar, event: Event, token: string, until: Time)
    requires ValidConfig(config) && config.kind.OpenId? && !event.NeedsAuth()
    requires Keeps(config, jar, token, until) && !BringsToken(config, jar, event)
    ensures Keeps(config, Step(config, jar, event), token, until)
  {
    hide OpenIdRoutes.HandleLogin;
    hide Content;
    hide ValidConfig;
    StepKeepsStore(config, jar, event);
    if event.OpenIdLogin? {
      CookieAfterLogin(config, jar, event);
    }
  }

  /** A session request sent on by such a browser carries the token. */
  lemma KeptTokenIsSent(config: Config, jar: Jar, event: Event, token: string, until: Time)
    requires ValidConfig(config) && config.kind.OpenId? && SessionRequest(config, event)
    requires Keeps(config, jar, token, until) && event.Now() < until
    ensures Sends(config, jar, event, token)
  {
    hide AuthHandler.HandleSession;
    hide AuthHandler.HandleCredentials;
    hide OpenIdAuth.Renewal;
    var v, answers := Open(jar), event.answers;
    NothingToRenew(config, jar, answers, token, until);
    SessionLeaves(config, jar, event.request, answers);
    AuthenticatedOnlyIf(config, jar, event);
    if SessionAccepted(config, jar, answers) {
      SessionOutcome(config, jar, event.request, answers);
      var check := OpenIdAuth.Check(config, jar.main.value, v, answers);
      assert check.cookie == jar.main.value && check.view == v;
      assert ExtraValue(config, jar.main.value, v) == "Bearer " + token;
    }
  }

  /** A renewal that stores the session cookie leaves a browser that keeps the new token. */
  lemma RenewerKeeps(config: Config, jar: Jar, event: Event, token: string, until: Time)
    requires ValidConfig(config) && config.kind.OpenId?
    requires Renews(config, jar, event, token, Some(until))
    requires StoresSession(config, jar, event.request, event.answers)
    ensures Keeps(config, Step(config, jar, event), token, until)
  {
    hide AuthHandler.Handle;
    hide AuthHandler.AuthNotRequired;
    hide AuthHandler.RequestIncludesAuthInfo;
    hide OpenIdAuth.Renewal;
    hide OpenIdAuth.GetExpirationDate;
    hide StoresSession;
    hide Content;
    hide BrowseEffect;
    hide ValidConfig;
    AuthLeaves(config, jar, event);
    StepKeepsStore(config, jar, event);
  }

  /** The first `n` events come before `until`, and none of them brings another token: no
      accepted credentials of its own, no completed login. */
  ghost predicate NoneBringsToken(config: Config, jar: Jar, events: seq<Event>, until: Time, n: nat)
    requires n <= |events|
  {
    forall k :: 0 <= k < n ==>
                  events[k].Now() < until && !BringsToken(config, JarAt(config, jar, events, k), events[k])
  }

  lemma {:induction false} StillKeeps(config: Config, jar: Jar, events: seq<Event>, token: string, until: Time, i: nat)
    requires ValidConfig(config) && config.kind.OpenId? && i <= |events|
    requires Keeps(config, jar, token, until) && NoneBringsToken(config, jar, events, until, i)
    ensures Keeps(config, JarAt(config, jar, events, i), token, until)
  {
    hide Step;
    hide Keeps;
    hide BringsToken;
    hide ValidConfig;
    if i == 0 {
    } else {
      StillKeeps(config, jar, events, token, until, i - 1);
      StepKeeps(config, JarAt(config, jar, events, i - 1), events[i - 1], token, until);
    }
  }

  /** Main result: once a renewal has reached the session cookie, every session request before
      the token expires is sent on with exactly that token, through any requests, switches,
      logouts and logins that do not bring another one. */
  lemma RenewedTokenIsSentUntilItExpires(config: Config, jar: Jar, renewing: Event, token: string, until: Time,
                                         later: seq<Event>, i: nat)
    requires ValidConfig(config) && config.kind.OpenId?
    requires Renews(config, jar, renewing, token, Some(until))
    requires StoresSession(config, jar, renewing.request, renewing.answers)
    requires i < |later| && SessionRequest(config, later[i]) && later[i].Now() < until
    requires NoneBringsToken(config, Step(config, jar, renewing), later, until, i)
    ensures Sends(config, JarAt(config, Step(config, jar, renewing), later, i), later[i], token)
  {
    hide Step;
    hide Keeps;
    hide Renews;
    hide Sends;
    hide BringsToken;
    hide StoresSession;
    hide ValidConfig;
    RenewerKeeps(config, jar, renewing, token, until);
    var start := Step(config, jar, renewing);
    StillKeeps(config, start, later, token, until, i);
    KeptTokenIsSent(config, JarAt(config, start, later, i), later[i], token, until);
  }
}
