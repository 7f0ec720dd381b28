/** The authorization-code flow: one session per nonce, and only for the last one issued
    (section 10.12 of RFC 6749). */
module SessionCodeFlow {
  import opened Wrappers
  import opened SecurityCookie
  import opened Exchange
  import opened AuthContext
  import opened OpenIdRoutes
  import opened SessionMachine
  import AuthHandler
  import NextUrl

  /** This request sends the browser to the provider with a new nonce. */
  predicate Initiates(config: Config, event: Event)
    requires config.kind.OpenId?
  {
    event.OpenIdLogin? && IsInitiation(config, event.query)
  }

  function FlowIn(jar: Jar): Option<OidcFlow> {
    if jar.main.Some? then jar.main.value.oidc else None
  }

  /** This request establishes a session for `state` and redirects to `location`. */
  ghost predicate Establishes(config: Config, jar: Jar, event: Event, state: string, location: string) {
    Observe(config, jar, event) == LoginAnswered(Established(state, location))
  }

  lemma SettleKeepsFlow(config: Config, request: Request, v: View, cookie: Cookie, headers: Headers,
                        authInfo: Option<AuthInfo>, answers: Answers)
    ensures var after := Respond(AuthHandler.Settle(config, request, v, cookie, headers, authInfo, answers).view).main;
            after == None || after == Respond(v).main || after.value.oidc == cookie.oidc
  {
    hide AuthHandler.ResolveTenant;
  }

  lemma BrowseKeepsFlow(config: Config, jar: Jar, request: Request, answers: Answers)
    ensures var after := Respond(AuthHandler.Handle(config, request, Open(jar), answers).view);
            FlowIn(after) == None || FlowIn(after) == FlowIn(jar)
  {
    hide AuthHandler.Settle;
    hide AuthHandler.BuildAuthHeaderFromCookie;
    hide AuthHandler.GetKeepAliveExpiry;
    var v := Open(jar);
    if AuthHandler.AuthNotRequired(config, request) {
    } else if AuthHandler.RequestIncludesAuthInfo(config, request) {
      var user := answers.authinfo(AuthHandler.GetAdditionalAuthHeader(config, request));
      if user.Some? && AuthHandler.PrepareCredentials(config, request, v, user.value.userName, answers.now).Some? {
        var p := AuthHandler.PrepareCredentials(config, request, v, user.value.userName, answers.now).value;
        SettleKeepsFlow(config, request, p.view, p.cookie, p.headers, user, answers);
      }
    } else if v.Session(answers.now).Some? {
      var check := AuthHandler.Check(config, jar.main.value, v, answers);
      assert check.cookie.oidc == FlowIn(jar) && check.view.mainWrite.Untouched? && check.view.jar == jar;
      if check.valid && AuthHandler.PrepareSession(config, request, check, answers.now).Some? {
        var p := AuthHandler.PrepareSession(config, request, check, answers.now).value;
        SettleKeepsFlow(config, request, p.view, p.cookie, p.headers, None, answers);
      }
    }
  }

  /** Only an initiation puts a flow into the jar, and it records the nonce it sent out. */
  lemma StepFlow(config: Config, jar: Jar, event: Event)
    requires config.kind.OpenId?
    ensures FlowIn(Step(config, jar, event)) ==
            if Initiates(config, event) then Some(FlowFor(event.query, event.login))
            else if FlowIn(Step(config, jar, event)).None? then None else FlowIn(jar)
  {
    if event.NeedsAuth() {
      BrowseKeepsFlow(config, jar, event.request, event.answers);
      BrowseHasEffect(config, jar, event.request, event.answers);
      assert AuthView(config, Open(jar), event).view.jar == jar;
    }
    hide AuthHandler.Handle;
    hide HasEffect;
  }

  /** Establishing a session consumes the flow recorded in the jar, whose nonce the callback named. */
  lemma EstablishConsumesFlow(config: Config, jar: Jar, event: Event, state: string, location: string)
    requires config.kind.OpenId? && Establishes(config, jar, event, state, location)
    ensures event.OpenIdLogin? && !Initiates(config, event) && event.query.state == Some(state)
    ensures FlowIn(jar).Some? && FlowIn(jar).value.state == Some(state)
    ensures location == LocationFor(config.kind, FlowIn(jar).value)
    ensures FlowIn(Step(config, jar, event)) == None
  {
    hide AuthHandler.Handle;
  }

  ghost predicate EstablishesAny(config: Config, jar: Jar, event: Event) {
    exists state, location :: Establishes(config, jar, event, state, location)
  }

  /** Request `j` issued the last nonce before request `i`, and no session came of it in between. */
  ghost predicate Outstanding(config: Config, jar: Jar, events: seq<Event>, i: nat, j: nat)
    requires config.kind.OpenId? && i <= |events|
  {
    && j < i
    && Initiates(config, events[j])
    && (forall k :: j < k < i ==> !Initiates(config, events[k]))
    && (forall k :: j < k < i ==> !EstablishesAny(config, JarAt(config, jar, events, k), events[k]))
  }

  lemma {:induction false} FlowIsOutstanding(config: Config, jar: Jar, events: seq<Event>, i: nat) returns (j: nat)
    requires config.kind.OpenId? && i <= |events|
    requires FlowIn(jar) == None && FlowIn(JarAt(config, jar, events, i)).Some?
    ensures Outstanding(config, jar, events, i, j)
    ensures FlowIn(JarAt(config, jar, events, i)) == Some(FlowFor(events[j].query, events[j].login))
  {
    hide Step;
    hide Establishes;
    hide FlowFor;
    var before, event := JarAt(config, jar, events, i - 1), events[i - 1];
    StepFlow(config, before, event);
    if Initiates(config, event) {
      j := i - 1;
    } else {
      j := FlowIsOutstanding(config, jar, events, i - 1);
      forall state, location
        ensures !Establishes(config, before, event, state, location)
      {
        if Establishes(config, before, event, state, location) {
          EstablishConsumesFlow(config, before, event, state, location);
        }
      }
    }
  }

  /** A url the validator accepted, or the server's own. */
  predicate SafeTarget(config: Config, url: string, baseRedirectUrl: string)
    requires config.kind.OpenId?
  {
    || (url != "" && NextUrl.Accepts(url, config.kind.serverBasePath))
    || url == baseRedirectUrl
    || url == "/"
  }

  lemma RecordedUrlIsSafe(config: Config, event: Event)
    requires config.kind.OpenId? && Initiates(config, event)
    ensures var url, base := FlowFor(event.query, event.login).nextUrl, config.kind.serverBasePath;
            && SafeTarget(config, url, event.login.baseRedirectUrl)
            && (NextUrl.LocalBase(base) ==> NextUrl.OnServer(url) || url == event.login.baseRedirectUrl)
  {
    var url, base := FlowFor(event.query, event.login).nextUrl, config.kind.serverBasePath;
    if url != "" && NextUrl.Accepts(url, base) && NextUrl.LocalBase(base) {
      NextUrl.AcceptedStaysOnServer(url, base);
    }
  }

  /** Main result: a session is established only by a callback whose state is the nonce last
      issued to this browser, and it redirects to the url recorded with that nonce, directly or
      through the page that restores the fragment. That url is the server's own or an accepted
      one, which stays on this server unless the base path itself leads off it. */
  lemma SessionOnlyForLastNonce(config: Config, jar: Jar, events: seq<Event>, i: nat, state: string, location: string)
    returns (j: nat)
    requires config.kind.OpenId? && FlowIn(jar) == None && i < |events|
    requires Establishes(config, JarAt(config, jar, events, i), events[i], state, location)
    ensures Outstanding(config, jar, events, i, j)
    ensures events[i].OpenIdLogin? && events[i].query.state == Some(state) && state == events[j].login.nonce
    ensures var flow := FlowFor(events[j].query, events[j].login);
            && location == LocationFor(config.kind, flow)
            && SafeTarget(config, flow.nextUrl, events[j].login.baseRedirectUrl)
            && (NextUrl.LocalBase(config.kind.serverBasePath) ==>
                  NextUrl.OnServer(flow.nextUrl) || flow.nextUrl == events[j].login.baseRedirectUrl)
  {
    hide Step;
    hide Establishes;
    EstablishConsumesFlow(config, JarAt(config, jar, events, i), events[i], state, location);
    j := FlowIsOutstanding(config, jar, events, i);
    RecordedUrlIsSafe(config, events[j]);
  }

  ghost predicate FreshNonces(config: Config, events: seq<Event>)
    requires config.kind.OpenId?
  {
    forall j, k :: 0 <= j < k < |events| && Initiates(config, events[j]) && Initiates(config, events[k]) ==>
                     events[j].login.nonce != events[k].login.nonce
  }

  /** Main result: each nonce yields at most one session. */
  lemma NonceYieldsOneSession(config: Config, jar: Jar, events: seq<Event>, i: nat, k: nat,
                              first: string, second: string, location1: string, location2: string)
    requires config.kind.OpenId? && FlowIn(jar) == None && i < k < |events|
    requires FreshNonces(config, events)
    requires Establishes(config, JarAt(config, jar, events, i), events[i], first, location1)
    requires Establishes(config, JarAt(config, jar, events, k), events[k], second, location2)
    ensures first != second
  {
    hide Step;
    hide Establishes;
    var ji := SessionOnlyForLastNonce(config, jar, events, i, first, location1);
    var jk := SessionOnlyForLastNonce(config, jar, events, k, second, location2);
    assert EstablishesAny(config, JarAt(config, jar, events, i), events[i]);
  }
}
