/** Which refresh token a session asks the provider with. */
module SessionRefresh {
  import opened Wrappers
  import opened SecurityCookie
  import opened Exchange
  import opened CookieSplitter
  import opened AuthContext
  import opened SessionMachine
  import opened SessionRequests
  import opened SessionAccess
  import opened SessionLogin
  import AuthHandler
  import OpenIdAuth
  import OpenIdRoutes
  import OpenIdTokens
  import SessionCredentials

  /** The provider answered this event with a token response, whose refresh token the session
      cookie has recorded since: a completed login, or a session request whose token was over
      and which asked with the refresh token recorded before. */
  ghost predicate Records(config: Config, jar: Jar, event: Event, refreshToken: string)
    requires config.kind.OpenId?
  {
    || (exists tokens, user, expiry :: LogsIn(config, jar, event, tokens, user, expiry)
                                       && KeptRefreshToken(config.kind, tokens) == Some(refreshToken))
    || (&& JudgedBySession(config, event) && SessionAccepted(config, jar, event.answers)
        && HasCredentials(jar.main) && !OpenIdTokens.Current(jar.main.value, event.Now())
        && jar.main.value.credentials.value.refreshToken.Some?
        && var reply := event.answers.refresh(jar.main.value.credentials.value.refreshToken.value);
        OpenIdTokens.Renews(reply, config.claimOf) && reply.value.refreshToken == Some(refreshToken))
  }

  /** The credentials in the session cookie, if there are any. */
  function CredentialsIn(jar: Jar): Option<Credentials> {
    if jar.main.Some? then jar.main.value.credentials else None
  }

  predicate HasRefreshToken(jar: Jar, refreshToken: string) {
    CredentialsIn(jar).Some? && CredentialsIn(jar).value.refreshToken == Some(refreshToken)
  }

  /** A renewal by the model's own account is one by the provider's. */
  lemma RenewalRecords(config: Config, jar: Jar, answers: Answers)
    requires ValidConfig(config) && config.kind.OpenId? && SessionAccepted(config, jar, answers)
    ensures var renewal := SessionCredentials.RenewalFor(config, jar, answers);
            renewal.Some? ==>
              && HasCredentials(jar.main) && !OpenIdTokens.Current(jar.main.value, answers.now)
              && jar.main.value.credentials.value.refreshToken.Some?
              && renewal == answers.refresh(jar.main.value.credentials.value.refreshToken.value)
              && OpenIdTokens.Renews(renewal, config.claimOf)
  {
    hide StoredValue;
    hide StoreValue;
    hide OpenIdAuth.GetExpirationDate;
    hide OpenIdTokens.Carries;
    var renewal := SessionCredentials.RenewalFor(config, jar, answers);
    if renewal.Some? {
      OpenIdTokens.ExpiryIs(renewal.value, answers.now, config.claimOf);
    }
  }

  /** One event keeps the recorded credentials, records those of an answer, or mints some
      without a refresh token. */
  lemma StepRecords(config: Config, jar: Jar, event: Event, refreshToken: string)
    requires ValidConfig(config) && config.kind.OpenId?
    requires HasRefreshToken(Step(config, jar, event), refreshToken)
    ensures CredentialsIn(Step(config, jar, event)) == CredentialsIn(jar) || Records(config, jar, event, refreshToken)
  {
    if event.NeedsAuth() {
      AuthRecords(config, jar, event, refreshToken);
    } else {
      LoginRecords(config, jar, event, refreshToken);
    }
  }

  lemma AuthRecords(config: Config, jar: Jar, event: Event, refreshToken: string)
    requires ValidConfig(config) && config.kind.OpenId? && event.NeedsAuth()
    requires HasRefreshToken(Step(config, jar, event), refreshToken)
    ensures CredentialsIn(Step(config, jar, event)) == CredentialsIn(jar) || Records(config, jar, event, refreshToken)
  {
    hide AuthHandler.Handle;
    hide AuthHandler.AuthNotRequired;
    hide AuthHandler.RequestIncludesAuthInfo;
    hide OwnCredentialsAccepted;
    hide SessionAccepted;
    hide StoresSession;
    hide BrowseEffect;
    hide SessionCredentials.RenewalFor;
    hide OpenIdAuth.GetExpirationDate;
    hide OpenIdTokens.Renews;
    hide Step;
    hide Observe;
    hide ValidConfig;
    hide ClearsSession;
    hide LogsIn;
    SessionCredentials.AuthLeaves(config, jar, event);
    CookieBehindAuth(config, jar, event);
    if !HasCredentials(jar.main) {
      NoCredentialsNoSession(config, jar, event.answers);
    }
    if SessionAccepted(config, jar, event.answers) {
      RenewalRecords(config, jar, event.answers);
    }
  }

  lemma LoginRecords(config: Config, jar: Jar, event: Event, refreshToken: string)
    requires ValidConfig(config) && config.kind.OpenId? && !event.NeedsAuth()
    requires HasRefreshToken(Step(config, jar, event), refreshToken)
    ensures CredentialsIn(Step(config, jar, event)) == CredentialsIn(jar) || Records(config, jar, event, refreshToken)
  {
    hide OpenIdRoutes.HandleLogin;
    hide LogsIn;
    hide Content;
    hide ValidConfig;
    if event.OpenIdLogin? {
      CookieAfterLogin(config, jar, event);
      if Observe(config, jar, event).login.Established? {
        var tokens, user, expiry := LoginIsComplete(config, jar, event);
        LoginLeaves(config, jar, event, tokens, user, expiry);
      }
    }
  }

  /** Event `j` recorded this refresh token, and the recorded credentials have stayed the same
      ever since, up to event `i`. */
  ghost predicate RecordedBy(config: Config, jar: Jar, events: seq<Event>, i: nat, j: nat, refreshToken: string)
    requires config.kind.OpenId? && i <= |events|
  {
    && j < i
    && Records(config, JarAt(config, jar, events, j), events[j], refreshToken)
    && forall k :: j < k <= i ==>
                     CredentialsIn(JarAt(config, jar, events, k)) == CredentialsIn(JarAt(config, jar, events, i))
  }

  lemma {:induction false} RefreshTokenOrigin(config: Config, jar: Jar, events: seq<Event>, i: nat,
                                              refreshToken: string) returns (j: nat)
    requires ValidConfig(config) && config.kind.OpenId? && i <= |events|
    requires !HasCredentials(jar.main) && HasRefreshToken(JarAt(config, jar, events, i), refreshToken)
    ensures RecordedBy(config, jar, events, i, j, refreshToken)
  {
    hide Step;
    hide Records;
    hide ValidConfig;
    if i == 0 {
      assert false;
    } else {
      var before := JarAt(config, jar, events, i - 1);
      StepRecords(config, before, events[i - 1], refreshToken);
      if Records(config, before, events[i - 1], refreshToken) {
        j := i - 1;
      } else {
        j := RefreshTokenOrigin(config, jar, events, i - 1, refreshToken);
      }
    }
  }

  /** Main result: in every run that starts without a session, a session whose token is over is
      accepted only if the provider answers the refresh token that the last recorded response
      returned, a login's or an earlier renewal's, and nothing else is asked. */
  lemma RenewalAsksWithLastToken(config: Config, jar: Jar, events: seq<Event>, i: nat)
    returns (j: nat, refreshToken: string)
    requires ValidConfig(config) && config.kind.OpenId? && !HasCredentials(jar.main)
    requires i < |events| && JudgedBySession(config, events[i])
    requires var before := JarAt(config, jar, events, i);
             && SessionAccepted(config, before, events[i].answers)
             && HasCredentials(before.main) && !OpenIdTokens.Current(before.main.value, events[i].Now())
    ensures RecordedBy(config, jar, events, i, j, refreshToken)
    ensures HasRefreshToken(JarAt(config, jar, events, i), refreshToken)
    ensures OpenIdTokens.Renews(events[i].answers.refresh(refreshToken), config.claimOf)
  {
    hide Step;
    hide Records;
    hide OpenIdAuth.Check;
    hide OpenIdTokens.WellFormed;
    hide OpenIdTokens.Renews;
    var before, answers := JarAt(config, jar, events, i), events[i].answers;
    OpenIdTokens.ValidAsItIs(config, before.main.value, Open(before), answers);
    refreshToken := before.main.value.credentials.value.refreshToken.value;
    OpenIdTokens.ValidIffRenewed(config, before.main.value, Open(before), answers, refreshToken);
    j := RefreshTokenOrigin(config, jar, events, i, refreshToken);
  }
}
