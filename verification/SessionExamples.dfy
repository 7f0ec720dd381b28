/** Concrete inputs on the failing side of the session's exact conditions. */
module SessionExamples {
  import opened Wrappers
  import opened Text
  import opened SecurityCookie
  import opened Exchange
  import opened CookieSplitter
  import opened AuthContext
  import opened SessionMachine
  import AuthHandler
  import JwtAuth
  import OpenIdAuth
  import OpenIdRoutes
  import Refinement = CookieSplitterRefinement
  import SessionAccess
  import SessionExpiry
  import SessionRenewal
  import SessionRequests
  import SessionTenant
  import TenantResolver

  const JWT := Jwt("authorization", "")
  const OPENID := OpenId(true, "", (s: string) => s)
  const ONE_TENANCY := Multitenancy(false, false, [], false)
  const MANY_TENANTS := Multitenancy(true, false, [], true)

  function ConfigOf(kind: AuthKind, multitenancy: Multitenancy, keepalive: bool, claim: Claim): (config: Config)
    ensures ValidConfig(config)
  {
    Config(kind, Storage("s", 1, MarkingCodec()), 1000.0, keepalive, [], multitenancy, (s: string) => s,
           (s: string) => claim)
  }

  /** The backend knows everybody as user `u`. */
  function AnswersAt(now: Time, tenants: seq<string>, renewed: Option<TokenResponse>): Answers {
    Answers(now, (headers: Headers) => Some(AuthInfo("u", tenants)),
            (headers: Headers) => Some(DashboardsInfo(true, true, None)), (refreshToken: string) => renewed)
  }

  function Bringing(token: string): Request {
    Request("/app/home", map[], map["authorization" := token])
  }

  /** The backend knows the credentials this request brings, and its token parses. */
  predicate BringsCredentials(config: Config, request: Request, answers: Answers) {
    var user := answers.authinfo(AuthHandler.GetAdditionalAuthHeader(config, request));
    && !AuthHandler.AuthNotRequired(config, request)
    && AuthHandler.RequestIncludesAuthInfo(config, request)
    && user.Some? && AuthHandler.NewCookie(config, request, user.value.userName, answers.now).Some?
  }

  lemma TokenAccepted(config: Config, token: string, answers: Answers)
    requires config.kind == JWT && config.unauthenticatedRoutes == []
    requires token != "" && forall payload :: config.claimOf(payload) != Malformed
    requires answers.authinfo(map[]).Some?
    ensures BringsCredentials(config, Bringing(token), answers)
    ensures AuthHandler.GetAdditionalAuthHeader(config, Bringing(token)) == map[]
  {
    assert JwtAuth.ClaimOf(token, config.claimOf) != Malformed;
    hide JwtAuth.ClaimOf;
  }

  // ---- a forgotten tenant --------------------------------------------------------

  /** A plain request by the user whose tenant the cookie remembers works in another one. */
  ghost predicate LosesTenant(config: Config, jar: Jar, event: Event, backend: SessionTenant.Backend, tenant: string)
    requires event.Browse?
  {
    && SessionTenant.Consistent(event.answers, backend)
    && SessionTenant.FixedPoint(config, backend, tenant) && SessionTenant.Remembers(jar, tenant)
    && TenantResolver.NamesNoTenant(event.request.query, event.request.headers)
    && OutcomeOf(config, jar, event).Authenticated?
    && OutcomeOf(config, jar, event).selectedTenant != Some(tenant)
    && !SessionTenant.Remembers(Step(config, jar, event), tenant)
  }

  lemma BringingNamesNoTenant(token: string)
    ensures TenantResolver.NamesNoTenant(Bringing(token).query, Bringing(token).headers)
  {
    var headers := Bringing(token).headers;
    assert |"authorization"| != |"securitytenant"| && |"authorization"| != |"securityTenant_"|;
    assert "securitytenant" !in headers && "securityTenant_" !in headers;
  }

  /** The default of a user with one tenant is the global one, where that is switched on and
      nothing is preferred. */
  lemma DefaultIsGlobal(config: Config, token: string, now: Time, tenant: string)
    requires config.multitenancy == MANY_TENANTS
    ensures var answers := AnswersAt(now, [tenant], None);
            var backend := SessionTenant.Backend(TenantResolver.Account("u", [tenant]), true, true);
            && SessionTenant.Consistent(answers, backend)
            && SessionTenant.FixedPoint(config, backend, tenant)
            && SessionTenant.DefaultTenant(config, Bringing(token), map[], answers, backend)
               == Some(TenantResolver.GLOBAL_TENANT_SYMBOL)
  {
    BringingNamesNoTenant(token);
    hide Bringing;
  }

  /** An expired cookie that remembers a tenant. */
  function Lapsed(tenant: string, expiry: Time): Jar {
    Jar(Some(ExtraCookie("u", JwtAuth.TYPE, expiry).(tenant := Some(tenant))), map[])
  }

  lemma LapsedIsNotRead(tenant: string, expiry: Time, now: Time)
    requires expiry < now
    ensures Open(Lapsed(tenant, expiry)).Session(now).None? && SessionTenant.Remembers(Lapsed(tenant, expiry), tenant)
  {
  }

  /** The cookie remembers the user's tenant, but it has expired: the same user's token is sent
      on for the default tenant, here the global one. */
  lemma LapsedSessionForgetsTenant(tenant: string, token: string, expiry: Time, now: Time)
    requires tenant != "" && token != "" && expiry < now
    ensures LosesTenant(ConfigOf(JWT, MANY_TENANTS, true, NoExp), Lapsed(tenant, expiry),
                        Browse(Bringing(token), AnswersAt(now, [tenant], None)),
                        SessionTenant.Backend(TenantResolver.Account("u", [tenant]), true, true), tenant)
  {
    hide SessionTenant.Chosen;
    hide SessionTenant.FixedPoint;
    hide SessionTenant.Remembers;
    hide SessionTenant.DefaultTenant;
    hide SessionTenant.Consistent;
    hide TenantResolver.NamesNoTenant;
    hide Bringing;
    hide Lapsed;
    hide BringsCredentials;
    hide LosesTenant;
    hide JwtAuth.ClaimOf;
    hide MarkingCodec;
    hide ValidConfig;
    hide AuthHandler.GetAdditionalAuthHeader;
    var config, answers := ConfigOf(JWT, MANY_TENANTS, true, NoExp), AnswersAt(now, [tenant], None);
    var backend := SessionTenant.Backend(TenantResolver.Account("u", [tenant]), true, true);
    TokenAccepted(config, token, answers);
    BringingNamesNoTenant(token);
    DefaultIsGlobal(config, token, now, tenant);
    LapsedIsNotRead(tenant, expiry, now);
    OtherDefaultLosesTenant(config, Lapsed(tenant, expiry), Browse(Bringing(token), answers), backend, tenant);
  }

  lemma OtherDefaultLosesTenant(config: Config, jar: Jar, event: Event, backend: SessionTenant.Backend, tenant: string)
    requires event.Browse? && config.multitenancy.enabled && SessionTenant.Consistent(event.answers, backend)
    requires BringsCredentials(config, event.request, event.answers)
    requires SessionTenant.FixedPoint(config, backend, tenant) && SessionTenant.Remembers(jar, tenant)
    requires TenantResolver.NamesNoTenant(event.request.query, event.request.headers)
    requires Open(jar).Session(event.Now()).None?
    requires var headers := AuthHandler.GetAdditionalAuthHeader(config, event.request);
             var default := SessionTenant.DefaultTenant(config, event.request, headers, event.answers, backend);
             default.Some? && default != Some(tenant)
    ensures LosesTenant(config, jar, event, backend, tenant)
  {
    hide SessionTenant.Chosen;
    hide SessionTenant.FixedPoint;
    hide SessionRequests.SessionHeaders;
    hide TenantResolver.NamesNoTenant;
    hide AuthHandler.NewCookie;
    hide AuthHandler.RequestIncludesAuthInfo;
    hide AuthHandler.HandleCredentials;
    SessionTenant.RequestFollows(config, jar, event.request, event.answers, backend);
    SessionTenant.CredentialsFollow(config, jar, event.request, event.answers, backend);
  }

  // ---- a cookie that outlives its token ---------------------------------------------

  /** Without tenants, accepted credentials are all a request needs. */
  lemma AcceptedRequestPasses(config: Config, jar: Jar, event: Event)
    requires event.NeedsAuth() && !config.multitenancy.enabled
    requires BringsCredentials(config, event.request, event.answers)
    ensures AuthView(config, Open(jar), event).outcome.Authenticated?
    ensures AuthView(config, Open(jar), event).view.jar == jar
  {
    hide AuthHandler.HandleSession;
    hide AuthHandler.GetAdditionalAuthHeader;
    hide AuthHandler.NewCookie;
    hide AuthHandler.RequestIncludesAuthInfo;
    hide BrowseEffect;
    hide StatesAfter;
    BrowseHasEffect(config, jar, event.request, event.answers);
  }

  lemma SwitchAnswered(config: Config, jar: Jar, event: Event)
    requires event.SwitchTenant? && config.kind.Jwt? && !config.multitenancy.enabled
    requires BringsCredentials(config, event.request, event.answers) && Open(jar).Session(event.Now()).Some?
    ensures Observe(config, jar, event) == Ok && SessionExpiry.PutsTokenNextToOldCookie(config, jar, event)
  {
    hide AuthHandler.Handle;
    hide AuthHandler.NewCookie;
    AcceptedRequestPasses(config, jar, event);
  }

  /** A cookie whose split cookies are gone. */
  function Bare(expiry: Time): Jar {
    Jar(Some(ExtraCookie("u", JwtAuth.TYPE, expiry)), map[])
  }

  lemma BareIsWithinToken(config: Config, expiry: Time, now: Time)
    requires ValidConfig(config) && now <= expiry <= now + config.ttl
    ensures Coherent(config, Bare(expiry)) && SessionExpiry.WithinToken(config, Bare(expiry), now)
    ensures Open(Bare(expiry)).Session(now).Some?
  {
    hide Coherent;
    hide Content;
    NoSplitCookies(config, Bare(expiry).main);
  }

  function TokenWith(payload: string): string {
    "Bearer " + JwtAuth.ThreeParts("a", payload, "c")
  }

  lemma TokenExpires(config: Config, payload: string, exp: real, expiry: Time)
    requires config.kind == JWT && Free(payload, {' ', '.'})
    requires config.claimOf(payload) == Exp(exp) && exp != 0.0 && exp * 1000.0 < expiry
    ensures !SessionExpiry.OldCookieFitsToken(config, Bare(expiry), Bringing(TokenWith(payload)))
    ensures TokenWith(payload) != ""
  {
    hide JwtAuth.ClaimOf;
    hide JwtAuth.ThreeParts;
    JwtAuth.ClaimOfThreeParts("a", payload, "c", config.claimOf);
  }

  /** A session is kept next to a token that expires before it. */
  lemma SwitchOutlivesNewToken(payload: string, exp: real, expiry: Time, now: Time)
    requires Free(payload, {' ', '.'})
    requires exp != 0.0 && exp * 1000.0 < expiry && now <= expiry <= now + 1000.0
    ensures var config := ConfigOf(JWT, ONE_TENANCY, true, Exp(exp));
            var event := SwitchTenant(Bringing(TokenWith(payload)), AnswersAt(now, [], None), "a");
            && SessionExpiry.JwtConfig(config)
            && SessionExpiry.WithinToken(config, Bare(expiry), now)
            && Observe(config, Bare(expiry), event) == Ok
            && !SessionExpiry.WithinToken(config, Step(config, Bare(expiry), event), now)
  {
    hide JwtAuth.ClaimOf;
    hide Coherent;
    hide SessionExpiry.WithinToken;
    hide SessionExpiry.OldCookieFitsToken;
    hide SessionExpiry.PutsTokenNextToOldCookie;
    hide BringsCredentials;
    hide AuthHandler.GetAdditionalAuthHeader;
    hide Bringing;
    hide Bare;
    hide TokenWith;
    hide Step;
    hide Observe;
    hide ValidConfig;
    hide MarkingCodec;
    var config := ConfigOf(JWT, ONE_TENANCY, true, Exp(exp));
    var event := SwitchTenant(Bringing(TokenWith(payload)), AnswersAt(now, [], None), "a");
    BareIsWithinToken(config, expiry, now);
    TokenExpires(config, payload, exp, expiry);
    TokenAccepted(config, TokenWith(payload), event.answers);
    SwitchAnswered(config, Bare(expiry), event);
    SessionExpiry.SwitchWithOwnTokenIff(config, Bare(expiry), event);
  }

  // ---- a keep-alive that passes its token's deadline ----------------------------------

  const X_TOKEN := Jwt("x-token", "")

  /** A session cookie next to its token in the first split cookie. */
  function Holding(config: Config, cookie: Cookie, token: string): Jar {
    Jar(Some(cookie), map[CookieName(config.storage.cookiePrefix, 1) := config.storage.codec.encode(token)])
  }

  lemma HoldingHolds(config: Config, cookie: Cookie, token: string)
    requires ValidConfig(config) && config.storage.additionalCookies == 1
    ensures Coherent(config, Holding(config, cookie, token))
    ensures Content(config, Holding(config, cookie, token)) == Some(token)
  {
    var v, prefix := Open(Holding(config, cookie, token)), config.storage.cookiePrefix;
    assert UnsplitFirst(v, prefix, 1) == "" + Piece(v, prefix, 1) == config.storage.codec.encode(token);
  }

  function Plain(): Request {
    Request("/app/home", map[], map[])
  }

  /** A session whose expiry is its token's. */
  function Timely(config: Config, payload: string, deadline: Time): Jar {
    Holding(config, ExtraCookie("u", JwtAuth.TYPE, deadline), TokenWith(payload))
  }

  lemma TimelyIsWithinToken(config: Config, payload: string, exp: real, now: Time)
    requires ValidConfig(config) && config.kind.Jwt? && config.storage.additionalCookies == 1
    requires Free(payload, {' ', '.'}) && config.claimOf(payload) == Exp(exp) && exp != 0.0
    requires exp * 1000.0 <= now + config.ttl
    ensures var jar := Timely(config, payload, exp * 1000.0);
            && SessionExpiry.StoredDeadline(config, jar) == Some(exp * 1000.0)
            && SessionExpiry.WithinToken(config, jar, now)
  {
    hide JwtAuth.ClaimOf;
    hide JwtAuth.ThreeParts;
    hide Content;
    HoldingHolds(config, ExtraCookie("u", JwtAuth.TYPE, exp * 1000.0), TokenWith(payload));
    JwtAuth.ClaimOfThreeParts("a", payload, "c", config.claimOf);
  }

  lemma TimelyIsAccepted(config: Config, payload: string, deadline: Time, answers: Answers)
    requires ValidConfig(config) && config.kind == X_TOKEN && config.storage.additionalCookies == 1
    requires answers.now <= deadline && deadline != 0.0
    requires forall headers :: answers.authinfo(headers).Some?
    ensures SessionRequests.SessionHeaders(config, Timely(config, payload, deadline), Plain(), answers).Some?
  {
    hide JwtAuth.ClaimOf;
    hide StoredValue;
    hide TokenWith;
    HoldingHolds(config, ExtraCookie("u", JwtAuth.TYPE, deadline), TokenWith(payload));
    TokenIsNotEmpty(payload);
  }

  lemma TokenIsNotEmpty(payload: string)
    ensures TokenWith(payload) != ""
  {
  }

  /** Where the configured header is not `authorization`, one request slides the session past
      the deadline of the token it rests on. */
  lemma KeepAliveOutlivesToken(payload: string, exp: real, now: Time)
    requires Free(payload, {' ', '.'})
    requires exp != 0.0 && now <= exp * 1000.0 < now + 1000.0
    ensures var config := ConfigOf(X_TOKEN, ONE_TENANCY, true, Exp(exp));
            var jar, event := Timely(config, payload, exp * 1000.0), Browse(Plain(), AnswersAt(now, [], None));
            && SessionExpiry.WithinToken(config, jar, now)
            && !SessionExpiry.WithinToken(config, Step(config, jar, event), now)
  {
    hide SessionExpiry.WithinToken;
    hide SessionExpiry.StoredDeadline;
    hide SessionRequests.SessionHeaders;
    hide Timely;
    hide Step;
    hide ValidConfig;
    hide MarkingCodec;
    hide Plain;
    hide SessionRequest;
    var config, answers := ConfigOf(X_TOKEN, ONE_TENANCY, true, Exp(exp)), AnswersAt(now, [], None);
    TimelyIsWithinToken(config, payload, exp, now);
    TimelyIsAccepted(config, payload, exp * 1000.0, answers);
    PlainNeedsSession(config, answers);
    SessionExpiry.SlideWithinTokenIff(config, Timely(config, payload, exp * 1000.0), Browse(Plain(), answers));
  }

  // ---- a token that survives its logout -----------------------------------------------

  const FRESH := Jar(None, map[])

  /** A logout in which a browser without cookies brings its own token: the response clears what
      the browser sent, which is nothing, and leaves the token just stored. */
  lemma LogoutKeepsBroughtToken(token: string, now: Time)
    requires token != ""
    ensures var config := ConfigOf(OPENID, ONE_TENANCY, true, NoExp);
            var event := OpenIdLogout(Bringing(token), AnswersAt(now, [], None));
            && SessionAccess.LogsOut(config, FRESH, event)
            && !EmptiesAll(config, FRESH, EffectOf(config, FRESH, event))
            && Content(config, Step(config, FRESH, event)) == Some(token)
  {
    hide Bringing;
    hide BringsCredentials;
    hide ValidConfig;
    hide JwtAuth.RequestIncludesAuthInfo;
    hide SessionAccess.LogsOut;
    hide EffectOf;
    hide EmptiesAll;
    hide HasEffect;
    hide ServeView;
    hide Respond;
    hide Content;
    hide MarkingCodec;
    hide AuthHandler.RequestIncludesAuthInfo;
    hide AuthHandler.AuthNotRequired;
    var config := ConfigOf(OPENID, ONE_TENANCY, true, NoExp);
    var event := OpenIdLogout(Bringing(token), AnswersAt(now, [], None));
    HeaderAccepted(config, token, event.answers);
    FreshLogout(config, event, token);
    StepHasEffect(config, FRESH, event);
    ClearedTokenIsLeft(config, ServeView(config, Open(FRESH), event).view, token);
  }

  lemma HeaderAccepted(config: Config, token: string, answers: Answers)
    requires config.kind == OPENID && config.unauthenticatedRoutes == [] && token != ""
    requires answers.authinfo(map[]).Some?
    ensures BringsCredentials(config, Bringing(token), answers)
    ensures Lookup(Bringing(token).headers, "authorization") == Some(token)
  {
  }

  lemma FreshLogout(config: Config, event: Event, token: string)
    requires ValidConfig(config) && config.kind.OpenId? && !config.multitenancy.enabled
    requires event.OpenIdLogout? && BringsCredentials(config, event.request, event.answers)
    requires Lookup(event.request.headers, "authorization") == Some(token)
    ensures SessionAccess.LogsOut(config, FRESH, event)
    ensures EffectOf(config, FRESH, event) == WroteThenEmptied(token)
  {
    hide AuthHandler.Handle;
    hide StoreValue;
    hide StoredValue;
    hide ClearFirst;
    AcceptedRequestPasses(config, FRESH, event);
    assert Observe(config, FRESH, event) == LogoutAnswered(OpenIdRoutes.LoggedOut(None));
  }

  /** Storing and then clearing on a browser without cookies leaves the value for the next request. */
  lemma ClearedTokenIsLeft(config: Config, v: View, token: string)
    requires ValidConfig(config) && HasEffect(config, FRESH, v, WroteThenEmptied(token))
    ensures !EmptiesAll(config, FRESH, WroteThenEmptied(token))
    ensures Content(config, Respond(v)) == Some(token)
  {
    hide ClearFirst;
    hide WriteFirst;
    hide UnsplitFirst;
    var store, value := StoreOf(config), config.storage.codec.encode(token);
    NoSplitCookies(config, None);
    store.ClearAfterWriteKeepsValue(value);
    store.ClearAfterWriteIff(Open(FRESH), value);
    var w := store.Step(store.Step(Open(FRESH), Refinement.Write(value)), Refinement.Clear);
    SameStatesSameStore(config, Open(Respond(v)), Open(Respond(w)));
  }

  // ---- a renewal that does not reach the browser's cookie --------------------------------

  /** A session whose token, kept in the first split cookie, has expired but can be renewed. */
  function Renewable(config: Config, token: string, refreshToken: string, tokenExpiry: Time, expiry: Time): Jar {
    Holding(config, ExtraCookie("u", OpenIdAuth.TYPE, expiry).(
            credentials := Some(Credentials(None, true, Some(refreshToken), Some(tokenExpiry)))), token)
  }

  function RenewedBy(payload: string): (tokens: TokenResponse)
    ensures tokens.idToken == Some(JwtAuth.ThreeParts("a", payload, "c"))
  {
    TokenResponse(Some(JwtAuth.ThreeParts("a", payload, "c")), Some("next"), None)
  }

  lemma PlainNeedsSession(config: Config, answers: Answers)
    requires config.kind == OPENID || config.kind == X_TOKEN
    requires config.unauthenticatedRoutes == []
    ensures SessionRequest(config, Browse(Plain(), answers))
  {
  }

  lemma RenewableHolds(config: Config, token: string, refreshToken: string, tokenExpiry: Time, expiry: Time)
    requires ValidConfig(config) && config.storage.additionalCookies == 1
    ensures Content(config, Renewable(config, token, refreshToken, tokenExpiry, expiry)) == Some(token)
  {
    hide Content;
    HoldingHolds(config, Renewable(config, token, refreshToken, tokenExpiry, expiry).main.value, token);
  }

  /** A request judged by a session that the provider renews, by everyone's account. */
  ghost predicate IsRenewed(config: Config, jar: Jar, event: Event, renewed: TokenResponse, until: Time) {
    && SessionRequest(config, event)
    && Open(jar).Session(event.Now()) == jar.main
    && SessionRenewal.RenewalBy(config, jar, event) == Some(renewed)
    && renewed.idToken.Some?
    && OpenIdAuth.GetExpirationDate(renewed, event.Now(), config.claimOf) == Some(Some(until))
    && forall headers :: event.answers.authinfo(headers).Some?
  }

  lemma RenewableIsRenewed(config: Config, token: string, refreshToken: string, payload: string, exp: real,
                           tokenExpiry: Time, expiry: Time, now: Time)
    requires ValidConfig(config) && config.storage.additionalCookies == 1
    requires config.kind == OPENID && config.unauthenticatedRoutes == []
    requires config.claimOf(payload) == Exp(exp) && Free(payload, {' ', '.'})
    requires token != "" && refreshToken != "" && tokenExpiry <= now <= expiry && expiry != 0.0
    ensures IsRenewed(config, Renewable(config, token, refreshToken, tokenExpiry, expiry),
                      Browse(Plain(), AnswersAt(now, [], Some(RenewedBy(payload)))), RenewedBy(payload), exp * 1000.0)
  {
    hide Split;
    hide StoredValue;
    hide JwtAuth.ThreeParts;
    hide SessionRequest;
    RenewableHolds(config, token, refreshToken, tokenExpiry, expiry);
    JwtAuth.SplitInThree("a", payload, "c");
    PlainNeedsSession(config, AnswersAt(now, [], Some(RenewedBy(payload))));
  }

  /** Without tenants, a session the provider renews is all a request needs. */
  lemma RenewedRequestPasses(config: Config, jar: Jar, event: Event)
    requires config.kind.OpenId? && !config.multitenancy.enabled && SessionRequest(config, event)
    requires SessionRenewal.RenewalBy(config, jar, event).Some?
    requires forall headers :: event.answers.authinfo(headers).Some?
    ensures OutcomeOf(config, jar, event).Authenticated?
  {
    hide AuthHandler.HandleCredentials;
    hide AuthHandler.BuildAuthHeaderFromCookie;
    hide OpenIdAuth.Renewal;
    hide StoreValue;
  }

  ghost predicate LosesRenewal(config: Config, jar: Jar, event: Event, idToken: string, until: Time)
    requires event.Browse?
  {
    && SessionRenewal.Renews(config, jar, event, idToken, Some(until))
    && OutcomeOf(config, jar, event).Authenticated?
    && Content(config, Step(config, jar, event)) == Some("Bearer " + idToken)
    && Step(config, jar, event).main == jar.main
  }

  /** Without keep-alive the renewed token is stored, but the session cookie keeps the old
      refresh token and the old expiry. */
  lemma RenewedCredentialsAreLost(token: string, refreshToken: string, payload: string, exp: real,
                                  tokenExpiry: Time, expiry: Time, now: Time)
    requires Free(payload, {' ', '.'})
    requires token != "" && refreshToken != "" && tokenExpiry <= now <= expiry && expiry != 0.0
    ensures var config := ConfigOf(OPENID, ONE_TENANCY, false, Exp(exp));
            LosesRenewal(config, Renewable(config, token, refreshToken, tokenExpiry, expiry),
                         Browse(Plain(), AnswersAt(now, [], Some(RenewedBy(payload)))),
                         JwtAuth.ThreeParts("a", payload, "c"), exp * 1000.0)
  {
    hide AnswersAt;
    hide ValidConfig;
    hide MarkingCodec;
    hide Renewable;
    hide IsRenewed;
    hide LosesRenewal;
    hide Coherent;
    hide Content;
    hide Plain;
    hide RenewedBy;
    hide JwtAuth.ThreeParts;
    var config := ConfigOf(OPENID, ONE_TENANCY, false, Exp(exp));
    var jar := Renewable(config, token, refreshToken, tokenExpiry, expiry);
    RenewableHolds(config, token, refreshToken, tokenExpiry, expiry);
    RenewableIsRenewed(config, token, refreshToken, payload, exp, tokenExpiry, expiry, now);
    UnkeptRenewalIsLost(config, jar, Browse(Plain(), AnswersAt(now, [], Some(RenewedBy(payload)))),
                        RenewedBy(payload), exp * 1000.0);
  }

  lemma UnkeptRenewalIsLost(config: Config, jar: Jar, event: Event, renewed: TokenResponse, until: Time)
    requires ValidConfig(config) && config.kind.OpenId? && !config.keepalive && !config.multitenancy.enabled
    requires IsRenewed(config, jar, event, renewed, until)
    ensures LosesRenewal(config, jar, event, renewed.idToken.value, until)
  {
    hide OpenIdAuth.Renewal;
    hide OpenIdAuth.GetExpirationDate;
    hide Coherent;
    hide Content;
    hide Step;
    hide AuthHandler.Handle;
    RenewedRequestPasses(config, jar, event);
    NoTenantSelected(config, jar, event);
    SessionRenewal.RenewalPersistence(config, jar, event, renewed.idToken.value, Some(until));
  }

  lemma NoTenantSelected(config: Config, jar: Jar, event: Event)
    requires event.Browse? && !config.multitenancy.enabled && OutcomeOf(config, jar, event).Authenticated?
    ensures OutcomeOf(config, jar, event).selectedTenant == None
  {
    hide AuthHandler.Check;
    hide AuthHandler.PrepareSession;
    hide AuthHandler.PrepareCredentials;
  }
}
