/** The tenant over a whole session. */
module SessionTenant {
  import opened Wrappers
  import opened SecurityCookie
  import opened Exchange
  import opened CookieSplitter
  import opened AuthContext
  import opened TenantResolver
  import opened SessionMachine
  import opened SessionRequests
  import AuthHandler
  import OpenIdRoutes
  import TenantChoice

  /** What the backend keeps saying about one user. */
  datatype Backend = Backend(account: Account, multitenancyEnabled: bool, privateEnabled: bool)

  ghost predicate Consistent(answers: Answers, backend: Backend) {
    && (forall h: Headers :: answers.authinfo(h).Some? ==>
                               AuthHandler.AccountOf(answers.authinfo(h).value) == backend.account)
    && (forall h: Headers :: answers.dashboardsinfo(h).Some? ==>
                               && answers.dashboardsinfo(h).value.multitenancyEnabled == backend.multitenancyEnabled
                               && answers.dashboardsinfo(h).value.privateTenantEnabled == backend.privateEnabled)
  }

  function PolicyOf(config: Config, backend: Backend): Policy {
    Policy(config.multitenancy.preferred, config.multitenancy.enableGlobal,
           backend.multitenancyEnabled, backend.privateEnabled, config.lower)
  }

  /** Resolution leaves this tenant alone. */
  predicate FixedPoint(config: Config, backend: Backend, tenant: string) {
    Resolution(backend.account, Some(tenant), PolicyOf(config, backend)) == Some(tenant)
  }

  // ---- one request ---------------------------------------------------------------

  /** Everything an authenticated request says about its tenant agrees: the handler's state,
      the header sent on, and the cookie the browser is left with. */
  ghost predicate Agrees(config: Config, outcome: AuthHandler.Outcome, after: Option<Cookie>) {
    outcome.Authenticated? ==>
      && outcome.selectedTenant.Some?
      && Lookup(outcome.headers, "securitytenant") == Some(TenantHeader(config, outcome.selectedTenant.value))
      && TenantOf(after) == outcome.selectedTenant
  }

  /** What a request sent on with `headers` resolves to when its cookie remembers this tenant;
      None when the backend does not answer or no tenant is available. */
  function Chosen(config: Config, request: Request, remembered: Option<string>, headers: Headers, answers: Answers,
                  backend: Backend): Option<string> {
    var info := answers.dashboardsinfo(headers);
    if info.None? then None
    else
      var requested := RequestedTenant(request.query, request.headers, remembered, info.value.defaultTenant,
                                       backend.multitenancyEnabled);
      Resolution(backend.account, requested, PolicyOf(config, backend))
  }

  function OrElse(chosen: Option<string>, otherwise: Option<string>): Option<string> {
    if chosen.Some? then chosen else otherwise
  }

  /** For a user the backend knows, the choice is the handler's. */
  lemma ChosenIsTenantFor(config: Config, request: Request, remembered: Option<string>, headers: Headers,
                          answers: Answers, backend: Backend)
    requires Consistent(answers, backend) && answers.authinfo(headers).Some?
    ensures Chosen(config, request, remembered, headers, answers, backend)
         == TenantFor(config, request, remembered, headers, answers)
  {
    hide Resolution;
    hide RequestedTenant;
  }

  lemma SettleSelects(config: Config, request: Request, v: View, cookie: Cookie, headers: Headers,
                      authInfo: Option<AuthInfo>, answers: Answers, backend: Backend)
    requires config.multitenancy.enabled && Consistent(answers, backend)
    requires authInfo.Some? ==> authInfo == answers.authinfo(headers)
    requires TenantOf(MainAfter(v)) == cookie.tenant && MainAfter(v).Some?
    ensures var r := AuthHandler.Settle(config, request, v, cookie, headers, authInfo, answers);
            var chosen := Chosen(config, request, cookie.tenant, headers, answers, backend);
            && Agrees(config, r.outcome, MainAfter(r.view))
            && (r.outcome.Authenticated? ==>
                  r.outcome.selectedTenant == chosen && (authInfo.Some? || answers.authinfo(headers).Some?))
            && (authInfo.Some? && chosen.Some? ==> r.outcome.Authenticated?)
            && if authInfo.Some? || answers.authinfo(headers).Some?
               then MainAfter(r.view).Some? && TenantOf(MainAfter(r.view)) == OrElse(chosen, cookie.tenant)
               else MainAfter(r.view).Some? ==> TenantOf(MainAfter(r.view)) == cookie.tenant
  {
    hide AuthHandler.Settle;
    hide Chosen;
    hide TenantFor;
    SettleByTenant(config, request, v, cookie, headers, authInfo, answers);
    if answers.authinfo(headers).Some? {
      ChosenIsTenantFor(config, request, cookie.tenant, headers, answers, backend);
    }
  }

  /** What an authenticated request selects, and what the authentication handler leaves in the
      browser's cookie, whatever the outcome. */
  ghost predicate Follows(config: Config, jar: Jar, request: Request, answers: Answers, backend: Backend,
                          r: AuthHandler.Result, headers: Option<Headers>) {
    var remembered, after := Remembered(jar, answers.now), MainAfter(r.view);
    && Agrees(config, r.outcome, after)
    && (r.outcome.Authenticated? ==>
          headers.Some?
          && r.outcome.selectedTenant == Chosen(config, request, remembered, headers.value, answers, backend))
    && if headers.Some? then
         var chosen := Chosen(config, request, remembered, headers.value, answers, backend);
         after.Some? && TenantOf(after) == OrElse(chosen, remembered)
       else
         after.Some? ==> jar.main.Some? && TenantOf(after) == TenantOf(jar.main)
  }

  lemma SessionFollows(config: Config, jar: Jar, request: Request, answers: Answers, backend: Backend)
    requires config.multitenancy.enabled && Consistent(answers, backend)
    ensures Follows(config, jar, request, answers, backend,
                    AuthHandler.HandleSession(config, request, Open(jar), answers),
                    SessionHeaders(config, jar, request, answers))
  {
    hide AuthHandler.Settle;
    hide Chosen;
    if Open(jar).Session(answers.now).Some? {
      var check := AuthHandler.Check(config, jar.main.value, Open(jar), answers);
      assert check.cookie.tenant == TenantOf(jar.main) && check.view.mainWrite.Untouched? && check.view.jar == jar;
      if check.valid && AuthHandler.PrepareSession(config, request, check, answers.now).Some? {
        var p := AuthHandler.PrepareSession(config, request, check, answers.now).value;
        SettleSelects(config, request, p.view, p.cookie, p.headers, None, answers, backend);
      }
    }
  }

  lemma CredentialsFollow(config: Config, jar: Jar, request: Request, answers: Answers, backend: Backend)
    requires config.multitenancy.enabled && Consistent(answers, backend)
    ensures var r := AuthHandler.HandleCredentials(config, request, Open(jar), answers);
            var headers := CredentialHeaders(config, request, answers);
            && Follows(config, jar, request, answers, backend, r, headers)
            && (headers.Some? ==>
                  var remembered := Remembered(jar, answers.now);
                  Chosen(config, request, remembered, headers.value, answers, backend).Some? ==>
                    r.outcome.Authenticated?)
  {
    hide AuthHandler.Settle;
    hide Chosen;
    hide AuthHandler.PrepareCredentials;
    hide AuthHandler.NewCookie;
    hide AuthHandler.StoreToken;
    hide AuthHandler.GetAdditionalAuthHeader;
    var v, user := Open(jar), answers.authinfo(AuthHandler.GetAdditionalAuthHeader(config, request));
    if user.Some? {
      MintedCookie(config, jar, request, user.value.userName, answers.now);
      var prepared := AuthHandler.PrepareCredentials(config, request, v, user.value.userName, answers.now);
      if prepared.Some? {
        var p := prepared.value;
        SettleSelects(config, request, p.view, p.cookie, p.headers, user, answers, backend);
      }
    }
  }

  lemma RequestFollows(config: Config, jar: Jar, request: Request, answers: Answers, backend: Backend)
    requires config.multitenancy.enabled && Consistent(answers, backend)
    ensures Follows(config, jar, request, answers, backend, AuthHandler.Handle(config, request, Open(jar), answers),
                    HeadersInUse(config, jar, request, answers))
  {
    hide AuthHandler.HandleSession;
    hide AuthHandler.HandleCredentials;
    hide Chosen;
    hide SessionHeaders;
    hide CredentialHeaders;
    if AuthHandler.AuthNotRequired(config, request) {
    } else if AuthHandler.RequestIncludesAuthInfo(config, request) {
      CredentialsFollow(config, jar, request, answers, backend);
    } else {
      SessionFollows(config, jar, request, answers, backend);
    }
  }

  /** An authenticated request leaves the selected tenant in the jar, sends it on (or the
      global one under the aggregation view), and that tenant is a fixed point of resolution. */
  lemma BrowseRemembersTenant(config: Config, jar: Jar, event: Event, backend: Backend)
    requires config.multitenancy.enabled && event.Browse? && Consistent(event.answers, backend)
    ensures var outcome := OutcomeOf(config, jar, event);
            && Agrees(config, outcome, Step(config, jar, event).main)
            && (outcome.Authenticated? ==> FixedPoint(config, backend, outcome.selectedTenant.value))
  {
    var request, answers := event.request, event.answers;
    RequestFollows(config, jar, request, answers, backend);
    var headers := HeadersInUse(config, jar, request, answers);
    if headers.Some? && answers.dashboardsinfo(headers.value).Some? {
      var requested := RequestedTenant(request.query, request.headers, Remembered(jar, answers.now),
                                       answers.dashboardsinfo(headers.value).value.defaultTenant,
                                       backend.multitenancyEnabled);
      ResolutionIdempotent(backend.account, requested, PolicyOf(config, backend));
    }
    hide AuthHandler.Handle;
    hide HeadersInUse;
    hide Resolution;
    hide RequestedTenant;
  }

  // ---- what makes the browser forget a tenant --------------------------------------

  /** The session cookie, if there is one, remembers this tenant. */
  predicate Remembers(jar: Jar, tenant: string) {
    jar.main.Some? ==> jar.main.value.tenant == Some(tenant)
  }

  /** What a request that names no tenant and has no session to read resolves to. */
  function DefaultTenant(config: Config, request: Request, headers: Headers, answers: Answers,
                         backend: Backend): Option<string> {
    Chosen(config, request, None, headers, answers, backend)
  }

  /** An accepted request resets the tenant when it names one that resolves to another, and,
      naming none, when it brings its own credentials next to no live session although the
      default resolves to another. */
  ghost predicate RequestResets(config: Config, jar: Jar, request: Request, answers: Answers, backend: Backend,
                                tenant: string) {
    var headers := HeadersInUse(config, jar, request, answers);
    headers.Some? &&
    if NamesNoTenant(request.query, request.headers) then
      && Open(jar).Session(answers.now).None?
      && DefaultTenant(config, request, headers.value, answers, backend) != Some(tenant)
    else
      var remembered := Remembered(jar, answers.now);
      OrElse(Chosen(config, request, remembered, headers.value, answers, backend), remembered) != Some(tenant)
  }

  /** The events after which the browser's cookie no longer remembers `tenant`: besides such
      requests, an answered switch to another tenant, and a login that starts or completes. */
  ghost predicate Resets(config: Config, jar: Jar, event: Event, backend: Backend, tenant: string) {
    match event
    case Browse(request, answers) => RequestResets(config, jar, request, answers, backend, tenant)
    case SwitchTenant(request, answers, other) =>
      if Observe(config, jar, event).Ok? then other != tenant
      else RequestResets(config, jar, request, answers, backend, tenant)
    case OpenIdLogout(request, answers) =>
      && Routed(config, event)
      && !ClearsSession(config, jar, event)
      && RequestResets(config, jar, request, answers, backend, tenant)
    case OpenIdLogin(_, _) =>
      var observation := Observe(config, jar, event);
      observation.LoginAnswered? && (observation.login.RedirectedToProvider? || observation.login.Established?)
    case CaptureUrlFragment(_) => false
    case JwtLogout(_) => false
  }

  /** The event's backend answers, if it asks for any, are this backend's. */
  ghost predicate AnsweredBy(event: Event, backend: Backend) {
    event.NeedsAuth() ==> Consistent(event.answers, backend)
  }

  /** A plain request works in its cookie's tenant as long as it can read the cookie. */
  lemma PlainChoice(config: Config, request: Request, headers: Headers, answers: Answers, backend: Backend,
                    tenant: string)
    requires Consistent(answers, backend) && NamesNoTenant(request.query, request.headers)
    ensures var chosen := Chosen(config, request, Some(tenant), headers, answers, backend);
            chosen.Some? ==> chosen == Resolution(backend.account, Some(tenant), PolicyOf(config, backend))
  {
    hide Resolution;
  }

  /** The authentication handler makes the browser forget the tenant exactly as said. */
  lemma RequestForgetsIff(config: Config, jar: Jar, request: Request, answers: Answers, backend: Backend,
                          tenant: string)
    requires config.multitenancy.enabled && Consistent(answers, backend)
    requires FixedPoint(config, backend, tenant) && Remembers(jar, tenant)
    ensures var r := AuthHandler.Handle(config, request, Open(jar), answers);
            && Remembers(Respond(r.view), tenant) == !RequestResets(config, jar, request, answers, backend, tenant)
            && (r.outcome.Authenticated? && !RequestResets(config, jar, request, answers, backend, tenant) ==>
                  r.outcome.selectedTenant == Some(tenant))
  {
    RequestFollows(config, jar, request, answers, backend);
    var headers := HeadersInUse(config, jar, request, answers);
    if headers.Some? && NamesNoTenant(request.query, request.headers) {
      PlainChoice(config, request, headers.value, answers, backend, tenant);
    }
    hide AuthHandler.Handle;
    hide HeadersInUse;
    hide NamesNoTenant;
    hide Resolution;
    hide Chosen;
  }

  /** Whatever the event, it makes the browser forget the tenant if and only if it resets it. */
  lemma TenantForgottenIff(config: Config, jar: Jar, event: Event, backend: Backend, tenant: string)
    requires config.multitenancy.enabled && AnsweredBy(event, backend)
    requires FixedPoint(config, backend, tenant) && Remembers(jar, tenant)
    ensures Remembers(Step(config, jar, event), tenant) <==> !Resets(config, jar, event, backend, tenant)
  {
    if event.NeedsAuth() && Routed(config, event) {
      RequestForgetsIff(config, jar, event.request, event.answers, backend, tenant);
      CookieBehindAuth(config, jar, event);
      hide Step;
      hide Observe;
    } else if Routed(config, event) && event.OpenIdLogin? {
      CookieAfterLogin(config, jar, event);
      hide Step;
      hide Observe;
    }
    hide FixedPoint;
    hide Consistent;
    hide RequestResets;
    hide ClearsSession;
    hide ClearSplit;
    hide AuthHandler.Handle;
    hide OpenIdRoutes.HandleLogin;
  }

  // ---- whole runs ------------------------------------------------------------------

  /** None of the first `n` events resets the tenant. */
  ghost predicate NoneResets(config: Config, jar: Jar, events: seq<Event>, backend: Backend, tenant: string, n: nat)
    requires n <= |events|
  {
    forall k :: 0 <= k < n ==>
                  && AnsweredBy(events[k], backend)
                  && !Resets(config, JarAt(config, jar, events, k), events[k], backend, tenant)
  }

  lemma {:induction false} TenantKept(config: Config, jar: Jar, events: seq<Event>, backend: Backend,
                                      tenant: string, i: nat)
    requires config.multitenancy.enabled && i <= |events|
    requires FixedPoint(config, backend, tenant) && Remembers(jar, tenant)
    requires NoneResets(config, jar, events, backend, tenant, i)
    ensures Remembers(JarAt(config, jar, events, i), tenant)
  {
    hide Step;
    hide Resets;
    hide FixedPoint;
    hide Remembers;
    if i == 0 {
    } else {
      TenantKept(config, jar, events, backend, tenant, i - 1);
      TenantForgottenIff(config, JarAt(config, jar, events, i - 1), events[i - 1], backend, tenant);
    }
  }

  /** Main result: whatever tenant an authenticated request selects, every later authenticated
      request selects the same one, sends the same header and leaves it stored, through any
      requests, switches, logouts and rejected logins that do not reset it. */
  lemma SelectedTenantSticks(config: Config, jar: Jar, first: Event, tenant: string, later: seq<Event>,
                             backend: Backend, i: nat)
    requires config.multitenancy.enabled && first.Browse? && Consistent(first.answers, backend)
    requires OutcomeOf(config, jar, first).Authenticated?
    requires OutcomeOf(config, jar, first).selectedTenant == Some(tenant)
    requires i < |later| && later[i].Browse?
    requires NoneResets(config, Step(config, jar, first), later, backend, tenant, i + 1)
    ensures var start := Step(config, jar, first);
            var outcome := OutcomeOf(config, JarAt(config, start, later, i), later[i]);
            && Agrees(config, outcome, JarAt(config, start, later, i + 1).main)
            && (outcome.Authenticated? ==> outcome.selectedTenant == Some(tenant))
  {
    BrowseRemembersTenant(config, jar, first, backend);
    var start := Step(config, jar, first);
    TenantKept(config, start, later, backend, tenant, i);
    var before := JarAt(config, start, later, i);
    RequestForgetsIff(config, before, later[i].request, later[i].answers, backend, tenant);
    BrowseRemembersTenant(config, before, later[i], backend);
    hide AuthHandler.Handle;
    hide RequestResets;
    hide FixedPoint;
  }

  // ---- credentials next to a lapsed session -----------------------------------------

  /** A request that names no tenant and brings its own credentials keeps the remembered tenant
      if and only if its session cookie has not expired or the default resolves to that tenant. */
  lemma CredentialsKeepTenantIff(config: Config, jar: Jar, event: Event, backend: Backend, tenant: string)
    requires config.multitenancy.enabled && event.Browse? && Consistent(event.answers, backend)
    requires NamesNoTenant(event.request.query, event.request.headers)
    requires AuthHandler.RequestIncludesAuthInfo(config, event.request)
    requires FixedPoint(config, backend, tenant) && Remembers(jar, tenant)
    requires OutcomeOf(config, jar, event).Authenticated?
    ensures var headers := AuthHandler.GetAdditionalAuthHeader(config, event.request);
            OutcomeOf(config, jar, event).selectedTenant == Some(tenant) <==>
            || Open(jar).Session(event.Now()).Some?
            || DefaultTenant(config, event.request, headers, event.answers, backend) == Some(tenant)
  {
    RequestFollows(config, jar, event.request, event.answers, backend);
    RequestForgetsIff(config, jar, event.request, event.answers, backend, tenant);
    hide AuthHandler.Handle;
    hide AuthHandler.GetAdditionalAuthHeader;
    hide AuthHandler.RequestIncludesAuthInfo;
    hide SessionHeaders;
    hide NamesNoTenant;
    hide Chosen;
    hide FixedPoint;
    hide Consistent;
  }

  /** Switching by hand takes effect on the next request that names no tenant, resolved for its
      user, unless by then the session cookie has expired and the request brings its own credentials. */
  lemma SwitchTakesEffect(config: Config, jar: Jar, switchTo: Event, next: Event, backend: Backend)
    requires config.multitenancy.enabled && switchTo.SwitchTenant?
    requires Observe(config, jar, switchTo).Ok?
    requires next.Browse? && Consistent(next.answers, backend)
    requires NamesNoTenant(next.request.query, next.request.headers)
    ensures var after := Step(config, jar, switchTo);
            var outcome := OutcomeOf(config, after, next);
            outcome.Authenticated? ==>
              outcome.selectedTenant ==
              if Open(after).Session(next.Now()).Some?
              then Resolution(backend.account, Some(switchTo.tenant), PolicyOf(config, backend))
              else DefaultTenant(config, next.request,
                                 AuthHandler.GetAdditionalAuthHeader(config, next.request), next.answers, backend)
  {
    hide Step;
    hide Observe;
    hide AuthHandler.Handle;
    hide NamesNoTenant;
    hide Resolution;
    hide Chosen;
    var after, request, answers := Step(config, jar, switchTo), next.request, next.answers;
    CookieBehindAuth(config, jar, switchTo);
    RequestFollows(config, after, request, answers, backend);
    var headers := HeadersInUse(config, after, request, answers);
    if headers.Some? {
      PlainChoice(config, request, headers.value, answers, backend, switchTo.tenant);
    }
  }

  /** Main result: whoever names an own tenant works in it, whatever the cookie remembers, the
      backend's default is or the configuration prefers. */
  lemma NamedTenantIsSelected(config: Config, jar: Jar, event: Event, backend: Backend, k: nat, tenant: string)
    requires config.multitenancy.enabled && event.Browse? && Consistent(event.answers, backend)
    requires backend.multitenancyEnabled && tenant != "" && tenant in backend.account.tenants
    requires var places := TenantChoice.Places(event.request.query, event.request.headers);
             k < 5 && places[k] == Some(tenant) && forall j :: 0 <= j < k ==> !Truthy(places[j])
    ensures var outcome := OutcomeOf(config, jar, event);
            outcome.Authenticated? ==> outcome.selectedTenant == Some(tenant)
  {
    hide AuthHandler.Handle;
    hide HeadersInUse;
    hide Resolution;
    hide RequestedTenant;
    hide TenantChoice.Places;
    var request, answers := event.request, event.answers;
    RequestFollows(config, jar, request, answers, backend);
    var headers := HeadersInUse(config, jar, request, answers);
    if headers.Some? && answers.dashboardsinfo(headers.value).Some? {
      TenantChoice.FirstPlaceWins(request.query, request.headers, Remembered(jar, answers.now),
                                  answers.dashboardsinfo(headers.value).value.defaultTenant,
                                  backend.multitenancyEnabled);
      OwnTenantIsGiven(backend.account, tenant, PolicyOf(config, backend));
    }
  }

  lemma OwnTenantIsGiven(account: Account, tenant: string, policy: Policy)
    requires policy.multitenancyEnabled && tenant in account.tenants
    ensures var given := Resolution(account, Some(tenant), policy);
            given.Some? ==> given == Some(tenant)
  {
    hide ResolvePreferred;
    hide Fallback;
  }

  /** Main result: after an answered switch to an own tenant, the next plain request that can read
      its cookie works in it, whatever the configuration prefers. */
  lemma SwitchToOwnTenant(config: Config, jar: Jar, switchTo: Event, next: Event, backend: Backend)
    requires config.multitenancy.enabled && switchTo.SwitchTenant?
    requires Observe(config, jar, switchTo).Ok?
    requires next.Browse? && Consistent(next.answers, backend)
    requires NamesNoTenant(next.request.query, next.request.headers)
    requires backend.multitenancyEnabled && switchTo.tenant in backend.account.tenants
    requires Open(Step(config, jar, switchTo)).Session(next.Now()).Some?
    ensures var outcome := OutcomeOf(config, Step(config, jar, switchTo), next);
            outcome.Authenticated? ==> outcome.selectedTenant == Some(switchTo.tenant)
  {
    hide Step;
    hide Observe;
    hide AuthHandler.Handle;
    hide NamesNoTenant;
    hide Resolution;
    SwitchTakesEffect(config, jar, switchTo, next, backend);
    BrowseRemembersTenant(config, Step(config, jar, switchTo), next, backend);
    OwnTenantIsGiven(backend.account, switchTo.tenant, PolicyOf(config, backend));
  }
}
