/** Who gets in, and who is put out. */
module SessionAccess {
  import opened Wrappers
  import opened Exchange
  import opened CookieSplitter
  import opened AuthContext
  import opened SessionMachine
  import opened SessionRequests
  import AuthHandler
  import OpenIdRoutes
  import Refinement = CookieSplitterRefinement

  /** Main result: with credentials of its own a request is authenticated as whom the backend
      names for exactly those credentials; without them it needs an accepted session, and is
      authenticated as whom the backend names for exactly the headers it is sent on with. A
      session that is not accepted is removed from the browser. */
  lemma AuthenticatedOnlyIf(config: Config, jar: Jar, event: Event)
    requires event.Browse?
    ensures var outcome, answers := OutcomeOf(config, jar, event), event.answers;
            outcome.Authenticated? ==>
              && !AuthHandler.AuthNotRequired(config, event.request)
              && if AuthHandler.RequestIncludesAuthInfo(config, event.request)
                 then answers.authinfo(AuthHandler.GetAdditionalAuthHeader(config, event.request))
                   == Some(outcome.authInfo)
                 else
                   && SessionAccepted(config, jar, answers)
                   && answers.authinfo(outcome.headers) == Some(outcome.authInfo)
    ensures SessionRequest(config, event) && !SessionAccepted(config, jar, event.answers) ==>
              Step(config, jar, event).main == None
  {
    hide AuthHandler.Handle;
    hide AuthHandler.Check;
    hide AuthHandler.GetAdditionalAuthHeader;
    hide AuthHandler.RequestIncludesAuthInfo;
    hide AuthHandler.AuthNotRequired;
    hide TenantFor;
    AuthenticatedIff(config, jar, event.request, event.answers);
    if SessionRequest(config, event) {
      HandledBySession(config, jar, event);
      SessionLeaves(config, jar, event.request, event.answers);
    }
  }

  lemma HandledBySession(config: Config, jar: Jar, event: Event)
    requires JudgedBySession(config, event)
    ensures AuthView(config, Open(jar), event)
         == AuthHandler.HandleSession(config, event.request, Open(jar), event.answers)
  {
    hide AuthHandler.HandleSession;
    hide AuthHandler.HandleCredentials;
  }

  // ---- when a session starts -------------------------------------------------------

  predicate OwnCredentialsAccepted(config: Config, request: Request, answers: Answers) {
    && !AuthHandler.AuthNotRequired(config, request)
    && AuthHandler.RequestIncludesAuthInfo(config, request)
    && CredentialHeaders(config, request, answers).Some?
  }

  /** A token from outside the session reaches the browser: one the request brought, unless it
      is a logout that clears it again, or one that completes a login. */
  predicate BringsToken(config: Config, jar: Jar, event: Event) {
    Routed(config, event) &&
    match event
    case Browse(request, answers) => OwnCredentialsAccepted(config, request, answers)
    case SwitchTenant(request, answers, _) => OwnCredentialsAccepted(config, request, answers)
    case OpenIdLogout(request, answers) =>
      OwnCredentialsAccepted(config, request, answers) && !ClearsSession(config, jar, event)
    case OpenIdLogin(_, _) =>
      var observation := Observe(config, jar, event);
      observation.LoginAnswered? && observation.login.Established?
    case CaptureUrlFragment(_) => false
    case JwtLogout(_) => false
  }

  /** An answered tenant switch stores the cookie that came in, and so starts nothing. */
  predicate StartsSession(config: Config, jar: Jar, event: Event) {
    BringsToken(config, jar, event) && !(event.SwitchTenant? && Observe(config, jar, event).Ok?)
  }

  /** What the authentication handler leaves of a cookie without credentials. */
  lemma AuthStartsIff(config: Config, jar: Jar, event: Event)
    requires event.NeedsAuth() && !HasCredentials(jar.main)
    ensures HasCredentials(MainAfter(AuthView(config, Open(jar), event).view)) <==>
            OwnCredentialsAccepted(config, event.request, event.answers)
  {
    hide AuthHandler.HandleSession;
    hide AuthHandler.HandleCredentials;
    hide AuthHandler.RequestIncludesAuthInfo;
    hide CredentialHeaders;
    hide StoresSession;
    hide CheckedCredentials;
    if AuthHandler.AuthNotRequired(config, event.request) {
    } else if AuthHandler.RequestIncludesAuthInfo(config, event.request) {
      CredentialsLeave(config, jar, event.request, event.answers);
    } else {
      NoCredentialsNoSession(config, jar, event.answers);
      SessionLeaves(config, jar, event.request, event.answers);
    }
  }

  lemma NoCredentialsNoSession(config: Config, jar: Jar, answers: Answers)
    requires !HasCredentials(jar.main)
    ensures !SessionAccepted(config, jar, answers)
  {
  }

  /** A browser without a session gets one if and only if the event starts one. */
  lemma SessionStartsIff(config: Config, jar: Jar, event: Event)
    requires !HasCredentials(jar.main)
    ensures HasCredentials(Step(config, jar, event).main) <==> StartsSession(config, jar, event)
  {
    hide AuthHandler.Handle;
    hide OpenIdRoutes.HandleLogin;
    hide OwnCredentialsAccepted;
    hide ClearsSession;
    hide ClearSplit;
    if event.NeedsAuth() && Routed(config, event) {
      AuthStartsIff(config, jar, event);
      CookieBehindAuth(config, jar, event);
      hide Step;
      hide Observe;
    } else if Routed(config, event) && event.OpenIdLogin? {
      CookieAfterLogin(config, jar, event);
      hide Step;
      hide Observe;
    }
  }

  /** A completed logout, of either kind. */
  ghost predicate LogsOut(config: Config, jar: Jar, event: Event) {
    (event.JwtLogout? && config.kind.Jwt?)
    || (exists hint :: Observe(config, jar, event) == LogoutAnswered(OpenIdRoutes.LoggedOut(hint)))
  }

  /** A logout removes the session cookie, and the split cookies with it exactly when its own
      request stored no token (a renewed one, or one it brought) in cookies the browser had not
      sent. */
  lemma LogoutRemovesSession(config: Config, jar: Jar, event: Event)
    requires config.storage.additionalCookies >= 1 && LogsOut(config, jar, event)
    ensures Step(config, jar, event).main == None
    ensures StoreOf(config).Content(Open(Step(config, jar, event))) == "" <==>
            EmptiesAll(config, jar, EffectOf(config, jar, event))
  {
    hide ServeView;
    hide EffectOf;
    StepHasEffect(config, jar, event);
    LogoutAnsweredClears(config, jar, event);
    ClearedStoreIff(config, jar, ServeView(config, Open(jar), event).view, EffectOf(config, jar, event));
  }

  lemma ClearedStoreIff(config: Config, jar: Jar, v: View, effect: SplitEffect)
    requires config.storage.additionalCookies >= 1 && HasEffect(config, jar, v, effect)
    requires effect.Emptied? || effect.WroteThenEmptied?
    ensures StoreOf(config).Content(Open(Respond(v))) == "" <==> EmptiesAll(config, jar, effect)
  {
    hide ClearFirst;
    hide WriteFirst;
    hide UnsplitFirst;
    var store, w := StoreOf(config), Open(jar);
    if effect.WroteThenEmptied? {
      var value := config.storage.codec.encode(effect.content);
      store.ClearAfterWriteIff(w, value);
      w := store.Step(w, Refinement.Write(value));
    } else {
      store.ClearReachesNextRequest(jar);
    }
    w := store.Step(w, Refinement.Clear);
    assert w.jar == v.jar && w.states == v.states;
    SameStatesSameStore(config, Open(Respond(v)), Open(Respond(w)));
  }

  lemma LogoutAnsweredClears(config: Config, jar: Jar, event: Event)
    requires LogsOut(config, jar, event)
    ensures Step(config, jar, event).main == None
    ensures EffectOf(config, jar, event).Emptied? || EffectOf(config, jar, event).WroteThenEmptied?
  {
    if event.OpenIdLogout? {
      BrowseHasEffect(config, jar, event.request, event.answers);
    }
    hide AuthHandler.Handle;
    hide ClearFirst;
    hide StoredValue;
    hide HasEffect;
  }

  // ---- whole runs --------------------------------------------------------------------

  /** None of the first `n` events starts a session. */
  ghost predicate NoneStarts(config: Config, jar: Jar, events: seq<Event>, n: nat)
    requires n <= |events|
  {
    forall k :: 0 <= k < n ==> !StartsSession(config, JarAt(config, jar, events, k), events[k])
  }

  lemma {:induction false} StaysOut(config: Config, jar: Jar, events: seq<Event>, i: nat)
    requires i <= |events| && !HasCredentials(jar.main) && NoneStarts(config, jar, events, i)
    ensures !HasCredentials(JarAt(config, jar, events, i).main)
  {
    hide Step;
    hide StartsSession;
    hide HasCredentials;
    if i == 0 {
    } else {
      StaysOut(config, jar, events, i - 1);
      SessionStartsIff(config, JarAt(config, jar, events, i - 1), events[i - 1]);
    }
  }

  /** Main result: after a logout, whatever follows, no request is authenticated by its session
      until an event starts a new one. */
  lemma LogoutEndsSession(config: Config, jar: Jar, logout: Event, later: seq<Event>, i: nat)
    requires LogsOut(config, jar, logout)
    requires i < |later| && NoneStarts(config, Step(config, jar, logout), later, i)
    requires JudgedBySession(config, later[i])
    ensures var before := JarAt(config, Step(config, jar, logout), later, i);
            && !HasCredentials(before.main)
            && !AuthView(config, Open(before), later[i]).outcome.Authenticated?
  {
    hide Step;
    hide AuthHandler.Handle;
    hide AuthHandler.Check;
    hide TenantFor;
    hide StartsSession;
    LogoutAnsweredClears(config, jar, logout);
    StaysOut(config, Step(config, jar, logout), later, i);
    var before := JarAt(config, Step(config, jar, logout), later, i);
    NoCredentialsNoSession(config, before, later[i].answers);
    AuthenticatedIff(config, before, later[i].request, later[i].answers);
  }
}
