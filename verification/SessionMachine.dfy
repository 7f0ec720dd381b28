/** One browser and the plugin: a transition system whose state is the browser's cookie jar
    and whose steps are requests, one at a time. */
module SessionMachine {
  import opened Wrappers
  import opened SecurityCookie
  import opened Exchange
  import opened CookieSplitter
  import opened AuthContext
  import AuthHandler
  import JwtAuth
  import JwtRoutes
  import NextUrl
  import OpenIdAuth
  import OpenIdRoutes
  import TenantRoutes
  import Sizes = CookieSplitterSizes
  import Refinement = CookieSplitterRefinement

  /** Requests that need authentication pass the authentication handler first, and their route
      then works on the same exchange. */
  datatype Event =
    | Browse(request: Request, answers: Answers)
    | SwitchTenant(request: Request, answers: Answers, tenant: string)
    | OpenIdLogout(request: Request, answers: Answers)
    | OpenIdLogin(query: OpenIdRoutes.LoginQuery, login: OpenIdRoutes.LoginAnswers)
    | CaptureUrlFragment(at: Time)
    | JwtLogout(at: Time)
  {
    function Now(): Time {
      match this
      case OpenIdLogin(_, login) => login.now
      case CaptureUrlFragment(at) => at
      case JwtLogout(at) => at
      case _ => answers.now
    }

    predicate NeedsAuth() {
      Browse? || SwitchTenant? || OpenIdLogout?
    }
  }

  datatype Observation =
    | Browsed(outcome: AuthHandler.Outcome)            // by the authentication handler alone
    | LoginAnswered(login: OpenIdRoutes.LoginOutcome)
    | LogoutAnswered(logout: OpenIdRoutes.LogoutOutcome)
    | Ok
    | BadRequest
    | NotFound

  datatype Served = Served(observation: Observation, view: View)

  /** The routes registered depend on the authentication type. */
  predicate Routed(config: Config, event: Event) {
    match event
    case Browse(_, _) => true
    case SwitchTenant(_, _, _) => true
    case JwtLogout(_) => config.kind.Jwt?
    case _ => config.kind.OpenId?
  }

  /** The framework hands these requests on to their route. */
  predicate Passes(outcome: AuthHandler.Outcome) {
    outcome.Authenticated? || outcome.PassedThrough?
  }

  function AuthView(config: Config, v: View, event: Event): AuthHandler.Result
    requires event.NeedsAuth()
  {
    AuthHandler.Handle(config, event.request, v, event.answers)
  }

  function ServeView(config: Config, v: View, event: Event): Served {
    if !Routed(config, event) then Served(NotFound, v)
    else
      match event
      case Browse(_, _) =>
        var r := AuthView(config, v, event);
        Served(Browsed(r.outcome), r.view)
      case SwitchTenant(_, answers, tenant) =>
        var r := AuthView(config, v, event);
        if !Passes(r.outcome) then Served(Browsed(r.outcome), r.view)
        else Served(if r.view.Session(answers.now).Some? then Ok else BadRequest,
                    TenantRoutes.HandleSwitch(r.view, tenant, answers.now))
      case OpenIdLogout(_, answers) =>
        var r := AuthView(config, v, event);
        if !Passes(r.outcome) then Served(Browsed(r.outcome), r.view)
        else
          var logout := OpenIdRoutes.HandleLogout(config, r.view, answers.now);
          Served(LogoutAnswered(logout.outcome), logout.view)
      case OpenIdLogin(query, login) =>
        var r := OpenIdRoutes.HandleLogin(config, query, v, login);
        Served(LoginAnswered(r.outcome), r.view)
      case CaptureUrlFragment(_) => Served(Ok, v.Clear())
      case JwtLogout(_) => Served(Ok, JwtRoutes.HandleLogout(config, v))
  }

  function Observe(config: Config, jar: Jar, event: Event): Observation {
    ServeView(config, Open(jar), event).observation
  }

  /** How the authentication handler answers a request. */
  function OutcomeOf(config: Config, jar: Jar, event: Event): (outcome: AuthHandler.Outcome)
    requires event.Browse?
    ensures Observe(config, jar, event) == Browsed(outcome)
  {
    AuthHandler.Handle(config, event.request, Open(jar), event.answers).outcome
  }

  function Step(config: Config, jar: Jar, event: Event): Jar {
    Respond(ServeView(config, Open(jar), event).view)
  }

  /** The authentication handler judges this event by its session cookie alone. */
  predicate JudgedBySession(config: Config, event: Event) {
    && event.NeedsAuth()
    && !AuthHandler.AuthNotRequired(config, event.request)
    && !AuthHandler.RequestIncludesAuthInfo(config, event.request)
  }

  predicate SessionRequest(config: Config, event: Event) {
    event.Browse? && JudgedBySession(config, event)
  }

  /** The jar before event number `i` of a run. */
  function JarAt(config: Config, jar: Jar, events: seq<Event>, i: nat): Jar
    requires i <= |events|
  {
    if i == 0 then jar else Step(config, JarAt(config, jar, events, i - 1), events[i - 1])
  }

  /** The session cookie the browser is left with. */
  function MainAfter(v: View): Option<Cookie> {
    Respond(v).main
  }

  ghost predicate Chronological(events: seq<Event>) {
    forall i, j :: 0 <= i <= j < |events| ==> events[i].Now() <= events[j].Now()
  }

  /** The handlers themselves take exactly the machine's steps. */
  method Serve(config: Config, jar: Jar, event: Event) returns (observation: Observation, after: Jar)
    ensures observation == Observe(config, jar, event) && after == Step(config, jar, event)
  {
    var raw := new RawRequest(jar);
    if !Routed(config, event) {
      observation := NotFound;
    } else {
      match event {
        case Browse(request, answers) =>
          var outcome := AuthHandler.AuthHandler(config, raw, request, answers);
          observation := Browsed(outcome);
        case SwitchTenant(request, answers, tenant) =>
          var outcome := AuthHandler.AuthHandler(config, raw, request, answers);
          observation := Browsed(outcome);
          if Passes(outcome) {
            var ok := TenantRoutes.SwitchTenant(raw, tenant, answers.now);
            observation := if ok then Ok else BadRequest;
          }
        case OpenIdLogout(request, answers) =>
          var outcome := AuthHandler.AuthHandler(config, raw, request, answers);
          observation := Browsed(outcome);
          if Passes(outcome) {
            var logout := OpenIdRoutes.Logout(config, raw, answers.now);
            observation := LogoutAnswered(logout);
          }
        case OpenIdLogin(query, login) =>
          var outcome := OpenIdRoutes.Login(config, raw, query, login);
          observation := LoginAnswered(outcome);
        case CaptureUrlFragment(_) =>
          raw.ClearSession();
          observation := Ok;
        case JwtLogout(_) =>
          JwtRoutes.Logout(config, raw);
          observation := Ok;
      }
    }
    after := Respond(raw.GetView());
  }

  // ---- what a step does to the split cookies ---------------------------------

  function StoreOf(config: Config): Refinement.Store {
    Refinement.Store(config.storage.cookiePrefix, config.storage.additionalCookies)
  }

  ghost predicate Coherent(config: Config, jar: Jar) {
    StoreOf(config).Coherent(Open(jar))
  }

  /** The content the split cookies of this jar decompress to. */
  function Content(config: Config, jar: Jar): Option<string> {
    StoredValue(Open(jar), config.storage)
  }

  /** A browser without split cookies holds no content. */
  lemma NoSplitCookies(config: Config, main: Option<Cookie>)
    requires ValidConfig(config)
    ensures Coherent(config, Jar(main, map[])) && Content(config, Jar(main, map[])) == None
  {
    var v, prefix := Open(Jar(main, map[])), config.storage.cookiePrefix;
    assert forall i :: Piece(v, prefix, i) == "" && !Received(v, prefix, i);
    StoreOf(config).ContentEmptyIff(v, config.storage.additionalCookies);
  }

  datatype SplitEffect =
    | Kept
    | Wrote(content: string)
    | Emptied
    | WroteThenEmptied(content: string)

  /** The response cookies of a request that came with `jar` and has had this effect. */
  function StatesAfter(config: Config, jar: Jar, effect: SplitEffect): map<string, Pending> {
    var store := StoreOf(config);
    match effect
    case Kept => map[]
    case Wrote(content) => StoreValue(Open(jar), content, config.storage).states
    case Emptied => ClearFirst(Open(jar), store.prefix, store.cookies)
    case WroteThenEmptied(content) =>
      ClearFirst(StoreValue(Open(jar), content, config.storage), store.prefix, store.cookies)
  }

  ghost predicate HasEffect(config: Config, jar: Jar, v: View, effect: SplitEffect) {
    v.jar == jar && v.states == StatesAfter(config, jar, effect)
  }

  /** Clearing right after writing removes everything only if the browser had sent at least
      the cookies just written. */
  ghost predicate EmptiesAll(config: Config, jar: Jar, effect: SplitEffect) {
    effect.WroteThenEmptied? ==> StoreOf(config).ClearCovers(StoreValue(Open(jar), effect.content, config.storage))
  }

  /** What the split cookies hold afterwards. */
  function ContentAfter(config: Config, jar: Jar, effect: SplitEffect): Option<string> {
    match effect
    case Kept => Content(config, jar)
    case Wrote(content) => Some(content)
    case _ => None
  }

  lemma SameStatesSameStore(config: Config, v: View, w: View)
    requires v.jar.split == w.jar.split && v.states == w.states
    ensures StoreOf(config).Coherent(v) ==> StoreOf(config).Coherent(w)
    ensures StoreOf(config).Content(v) == StoreOf(config).Content(w)
    ensures StoredValue(v, config.storage) == StoredValue(w, config.storage)
  {
    var store := StoreOf(config);
    forall i
      ensures Piece(v, store.prefix, i) == Piece(w, store.prefix, i)
      ensures Received(v, store.prefix, i) == Received(w, store.prefix, i)
    {
    }
    store.SamePiecesSameContent(v, w, store.cookies);
  }

  /** The next request finds what this one left: the old content, the written one, or none. */
  lemma EffectReachesNextRequest(config: Config, jar: Jar, v: View, effect: SplitEffect)
    requires ValidConfig(config) && HasEffect(config, jar, v, effect)
    requires EmptiesAll(config, jar, effect)
    ensures Content(config, Respond(v)) == ContentAfter(config, jar, effect)
    ensures Coherent(config, jar) || !effect.Kept? ==> Coherent(config, Respond(v))
    ensures effect.Kept? || effect.Wrote? ==> StoredValue(v, config.storage) == Content(config, Respond(v))
  {
    hide ClearFirst;
    hide UnsplitFirst;
    hide WriteFirst;
    var store, w := StoreOf(config), Open(jar);
    match effect
    case Kept =>
      assert Respond(v).split == jar.split;
      SameStatesSameStore(config, Open(jar), Open(Respond(v)));
      SameStatesSameStore(config, Open(jar), v);
    case Wrote(content) =>
      store.WriteReachesNextRequest(w, config.storage.codec.encode(content));
      Sizes.StoredAfterStore(w, content, config.storage);
      SameEffectSameResponse(config, v, StoreValue(w, content, config.storage));
    case Emptied =>
      store.ClearReachesNextRequest(jar);
      SameEffectSameResponse(config, v, store.Step(w, Refinement.Clear));
    case WroteThenEmptied(content) =>
      var written := StoreValue(w, content, config.storage);
      store.ClearAfterWriteIff(w, config.storage.codec.encode(content));
      store.NothingReadIsCoherent(Respond(store.Step(written, Refinement.Clear)));
      SameEffectSameResponse(config, v, store.Step(written, Refinement.Clear));
  }

  lemma SameEffectSameResponse(config: Config, v: View, w: View)
    requires v.jar.split == w.jar.split && v.states == w.states
    ensures Coherent(config, Respond(w)) ==> Coherent(config, Respond(v))
    ensures Content(config, Respond(w)) == Content(config, Respond(v))
    ensures StoredValue(v, config.storage) == StoredValue(w, config.storage)
  {
    SameStatesSameStore(config, v, w);
    SameStatesSameStore(config, Open(Respond(w)), Open(Respond(v)));
  }

  /** What the authentication handler writes into the split cookies. */
  function BrowseEffect(config: Config, jar: Jar, request: Request, answers: Answers): SplitEffect {
    if AuthHandler.AuthNotRequired(config, request) then Kept
    else if AuthHandler.RequestIncludesAuthInfo(config, request) then
      if answers.authinfo(AuthHandler.GetAdditionalAuthHeader(config, request)).None? then Kept
      else
        match config.kind
        case Jwt(_, _) => Wrote(OrEmpty(JwtAuth.GetBearerToken(config.kind, request)))
        case OpenId(_, _, _) => Wrote(OrEmpty(Lookup(request.headers, "authorization")))
    else
      var cookie := Open(jar).Session(answers.now);
      if config.kind.Jwt? || cookie.None? then Kept
      else
        var tokens := OpenIdAuth.Renewal(config, cookie.value, Open(jar), answers);
        if tokens.Some? then Wrote("Bearer " + tokens.value.idToken.value) else Kept
  }

  lemma SettleWritesNoStates(config: Config, request: Request, v: View, cookie: Cookie, headers: Headers,
                             authInfo: Option<AuthInfo>, answers: Answers)
    ensures var w := AuthHandler.Settle(config, request, v, cookie, headers, authInfo, answers).view;
            w.jar == v.jar && w.states == v.states
  {
  }

  lemma SessionHasEffect(config: Config, jar: Jar, request: Request, answers: Answers)
    requires !AuthHandler.AuthNotRequired(config, request)
    requires !AuthHandler.RequestIncludesAuthInfo(config, request)
    ensures HasEffect(config, jar, AuthHandler.HandleSession(config, request, Open(jar), answers).view,
                      BrowseEffect(config, jar, request, answers))
  {
    hide AuthHandler.Settle;
    var v := Open(jar);
    if v.Session(answers.now).Some? {
      var check := AuthHandler.Check(config, jar.main.value, v, answers);
      assert HasEffect(config, jar, check.view, BrowseEffect(config, jar, request, answers));
      hide BrowseEffect;
      hide AuthHandler.Check;
      if check.valid && AuthHandler.PrepareSession(config, request, check, answers.now).Some? {
        var p := AuthHandler.PrepareSession(config, request, check, answers.now).value;
        SettleWritesNoStates(config, request, p.view, p.cookie, p.headers, None, answers);
      }
    }
  }

  lemma CredentialsHaveEffect(config: Config, jar: Jar, request: Request, answers: Answers)
    requires !AuthHandler.AuthNotRequired(config, request)
    requires AuthHandler.RequestIncludesAuthInfo(config, request)
    ensures HasEffect(config, jar, AuthHandler.HandleCredentials(config, request, Open(jar), answers).view,
                      BrowseEffect(config, jar, request, answers))
  {
    hide AuthHandler.Settle;
    hide AuthHandler.NewCookie;
    var user := answers.authinfo(AuthHandler.GetAdditionalAuthHeader(config, request));
    if user.Some? {
      var prepared := AuthHandler.PrepareCredentials(config, request, Open(jar), user.value.userName, answers.now);
      if prepared.Some? {
        var p := prepared.value;
        SettleWritesNoStates(config, request, p.view, p.cookie, p.headers, user, answers);
      }
    }
  }

  lemma BrowseHasEffect(config: Config, jar: Jar, request: Request, answers: Answers)
    ensures HasEffect(config, jar, AuthHandler.Handle(config, request, Open(jar), answers).view,
                      BrowseEffect(config, jar, request, answers))
  {
    hide AuthHandler.HandleSession;
    hide AuthHandler.HandleCredentials;
    if AuthHandler.AuthNotRequired(config, request) {
    } else if AuthHandler.RequestIncludesAuthInfo(config, request) {
      CredentialsHaveEffect(config, jar, request, answers);
    } else {
      SessionHasEffect(config, jar, request, answers);
    }
  }

  function EffectOf(config: Config, jar: Jar, event: Event): SplitEffect {
    if !Routed(config, event) then Kept
    else
      match event
      case Browse(request, answers) => BrowseEffect(config, jar, request, answers)
      case SwitchTenant(request, answers, _) => BrowseEffect(config, jar, request, answers)
      case OpenIdLogout(request, answers) =>
        var effect := BrowseEffect(config, jar, request, answers);
        var r := AuthView(config, Open(jar), event);
        if !Passes(r.outcome) || LogoutFails(config, r.view, answers.now) then effect
        else if effect.Wrote? then WroteThenEmptied(effect.content)
        else Emptied
      case OpenIdLogin(query, login) =>
        var outcome := OpenIdRoutes.HandleLogin(config, query, Open(jar), login).outcome;
        if outcome.Established? then Wrote(OpenIdRoutes.Redeem(config, query.code.value, login).value.bearer) else Kept
      case JwtLogout(_) => Emptied
      case CaptureUrlFragment(_) => Kept
  }

  /** The logout route stops before clearing anything when the stored value does not decompress. */
  predicate LogoutFails(config: Config, v: View, now: Time) {
    v.Session(now).Some? && HasExtra(v.Session(now).value) && StoredValue(v, config.storage).None?
  }

  lemma AuthStepHasEffect(config: Config, jar: Jar, event: Event)
    requires event.NeedsAuth()
    ensures HasEffect(config, jar, ServeView(config, Open(jar), event).view, EffectOf(config, jar, event))
  {
    var effect, v := BrowseEffect(config, jar, event.request, event.answers), AuthView(config, Open(jar), event).view;
    BrowseHasEffect(config, jar, event.request, event.answers);
    ClearFirstOfSame(config, v, jar, effect);
    hide AuthHandler.Handle;
    hide BrowseEffect;
    hide StoredValue;
    hide ClearFirst;
    hide StoreValue;
  }

  // ---- what a step does to the session cookie ----------------------------------

  /** The OpenID logout route gets as far as clearing both stores. */
  predicate ClearsSession(config: Config, jar: Jar, event: Event)
    requires event.OpenIdLogout?
  {
    var r := AuthView(config, Open(jar), event);
    config.kind.OpenId? && Passes(r.outcome) && !LogoutFails(config, r.view, event.Now())
  }

  /** Behind the authentication handler, an answered switch stores the cookie as received with
      the new tenant, a logout removes it, and nothing else touches it. */
  lemma CookieBehindAuth(config: Config, jar: Jar, event: Event)
    requires event.NeedsAuth() && Routed(config, event)
    ensures var auth, after := AuthView(config, Open(jar), event), Step(config, jar, event).main;
            match event
            case SwitchTenant(_, _, tenant) =>
              if Observe(config, jar, event).Ok?
              then jar.main.Some? && Passes(auth.outcome) && after == Some(jar.main.value.(tenant := Some(tenant)))
              else after == MainAfter(auth.view)
            case OpenIdLogout(_, _) => after == if ClearsSession(config, jar, event) then None else MainAfter(auth.view)
            case _ => after == MainAfter(auth.view)
  {
    BrowseHasEffect(config, jar, event.request, event.answers);
    assert AuthView(config, Open(jar), event).view.jar == jar;
    hide AuthHandler.Handle;
    hide HasEffect;
    hide StoredValue;
    hide ClearFirst;
    hide OpenIdRoutes.SecondWord;
    hide ApplyStates;
  }

  /** A login that starts or completes stores a cookie without a tenant, and only one that
      completes stores credentials; one that has to start over removes the cookie, and one that is refused keeps it. */
  lemma CookieAfterLogin(config: Config, jar: Jar, event: Event)
    requires event.OpenIdLogin? && config.kind.OpenId?
    ensures var observation, after := Observe(config, jar, event), Step(config, jar, event).main;
            && observation.LoginAnswered?
            && match observation.login
               case RedirectedToProvider(_) =>
                 after.Some? && after.value.tenant == None && after.value.credentials == None
               case Established(_, _) =>
                 after.Some? && after.value.tenant == None && after.value.credentials.Some?
               case RestartedLogin => after == None
               case _ => after == jar.main
  {
    hide SplitIntoCookies;
    hide NextUrl.ValidateNextUrl;
    hide ApplyStates;
    hide OpenIdAuth.GetExpirationDate;
  }

  /** Two routes ask for nothing and remove the session cookie: the one that captures the url's
      fragment, which leaves the split cookies alone, and the token logout. */
  lemma RoutesThatClear(config: Config, jar: Jar, event: Event)
    requires Routed(config, event) && (event.CaptureUrlFragment? || event.JwtLogout?)
    ensures Observe(config, jar, event) == Ok && Step(config, jar, event).main == None
    ensures event.CaptureUrlFragment? ==> Step(config, jar, event).split == jar.split
  {
    hide AuthHandler.Handle;
  }

  lemma StepHasEffect(config: Config, jar: Jar, event: Event)
    ensures HasEffect(config, jar, ServeView(config, Open(jar), event).view, EffectOf(config, jar, event))
  {
    if event.NeedsAuth() {
      AuthStepHasEffect(config, jar, event);
    } else {
      hide AuthHandler.Handle;
      hide BrowseEffect;
    }
  }

  /** Clearing depends on the response cookies and on what the browser sent, on nothing else. */
  lemma ClearFirstOfSame(config: Config, v: View, jar: Jar, effect: SplitEffect)
    requires HasEffect(config, jar, v, effect)
    ensures var store := StoreOf(config);
            ClearFirst(v, store.prefix, store.cookies) ==
            match effect
            case Kept => StatesAfter(config, jar, Emptied)
            case Wrote(content) => StatesAfter(config, jar, WroteThenEmptied(content))
            case _ => ClearFirst(v, store.prefix, store.cookies)
  {
    var store := StoreOf(config);
    match effect
    case Kept => ClearFirstSame(v, Open(jar), store.prefix, store.cookies);
    case Wrote(content) =>
      ClearFirstSame(v, StoreValue(Open(jar), content, config.storage), store.prefix, store.cookies);
    case _ =>
  }

  lemma {:induction false} ClearFirstSame(v: View, w: View, prefix: string, k: nat)
    requires v.jar == w.jar && v.states == w.states
    ensures ClearFirst(v, prefix, k) == ClearFirst(w, prefix, k)
  {
    if k == 0 {
    } else {
      ClearFirstSame(v, w, prefix, k - 1);
    }
  }

  /** After every step of every handler, from whatever cookies the browser holds, the next
      request reads exactly what this one wrote, left or cleared. */
  lemma StepKeepsStore(config: Config, jar: Jar, event: Event)
    requires ValidConfig(config)
    requires EmptiesAll(config, jar, EffectOf(config, jar, event))
    ensures Content(config, Step(config, jar, event)) == ContentAfter(config, jar, EffectOf(config, jar, event))
    ensures Coherent(config, jar) || !EffectOf(config, jar, event).Kept? ==> Coherent(config, Step(config, jar, event))
  {
    StepHasEffect(config, jar, event);
    EffectReachesNextRequest(config, jar, ServeView(config, Open(jar), event).view, EffectOf(config, jar, event));
  }

  /** In every run in which no logout leaves a token it has just stored, the split cookies stay
      filled from the first one on. */
  lemma {:induction false} RunStaysCoherent(config: Config, jar: Jar, events: seq<Event>, i: nat)
    requires ValidConfig(config) && Coherent(config, jar) && i <= |events|
    requires forall k :: 0 <= k < i ==>
                           var before := JarAt(config, jar, events, k);
                           EmptiesAll(config, before, EffectOf(config, before, events[k]))
    ensures Coherent(config, JarAt(config, jar, events, i))
  {
    hide Step;
    hide EffectOf;
    hide EmptiesAll;
    hide Coherent;
    hide ValidConfig;
    if i == 0 {
    } else {
      RunStaysCoherent(config, jar, events, i - 1);
      StepKeepsStore(config, JarAt(config, jar, events, i - 1), events[i - 1]);
    }
  }
}
