/** What an OpenID session needs in order to be valid, and what is asked of the provider. */
module OpenIdTokens {
  import opened Wrappers
  import opened Text
  import opened SecurityCookie
  import opened Exchange
  import opened CookieSplitter
  import opened AuthContext
  import opened OpenIdAuth
  import JwtAuth
  import Sizes = CookieSplitterSizes

  // ---- when a token expires ----------------------------------------------------------

  /** A token of three parts with this one in the middle. */
  ghost predicate Carries(token: string, payload: string) {
    exists first, last :: Free(first, {'.'}) && Free(payload, {'.'}) && Free(last, {'.'})
                          && token == JwtAuth.ThreeParts(first, payload, last)
  }

  /** What the claims of a payload say about the moment of expiry; the outer None is an error. */
  function SaidBy(claim: Claim): Option<Option<Time>> {
    match claim
    case Malformed => None
    case NoExp => Some(None)
    case Exp(seconds) => Some(Some(seconds * 1000.0))
  }

  /** Main result: an identity token expires when the middle one of its three parts says, in
      seconds; without one the response's own number of seconds counts from now. Anything else
      is an error. */
  lemma ExpiryIs(tokens: TokenResponse, now: Time, claimOf: string -> Claim)
    ensures var expiry := GetExpirationDate(tokens, now, claimOf);
            if Truthy(tokens.idToken) then
              && (forall payload :: Carries(tokens.idToken.value, payload) ==> expiry == SaidBy(claimOf(payload)))
              && (expiry.Some? ==> exists payload :: Carries(tokens.idToken.value, payload))
            else
              expiry == Some(if tokens.expiresIn.Some? then Some(now + 1000.0 * tokens.expiresIn.value) else None)
  {
    hide Split;
    if Truthy(tokens.idToken) {
      var token := tokens.idToken.value;
      forall payload | Carries(token, payload)
        ensures GetExpirationDate(tokens, now, claimOf) == SaidBy(claimOf(payload))
      {
        var first, last :| Free(first, {'.'}) && Free(payload, {'.'}) && Free(last, {'.'})
                           && token == JwtAuth.ThreeParts(first, payload, last);
        JwtAuth.SplitInThree(first, payload, last);
      }
      if |Split(token, {'.'})| == 3 {
        ThreePiecesCarry(token);
      }
    }
  }

  lemma ThreePiecesCarry(token: string)
    requires |Split(token, {'.'})| == 3
    ensures Carries(token, Split(token, {'.'})[1])
  {
    var pieces := Split(token, {'.'});
    hide Split;
    SplitPiecesAreFree(token, {'.'});
    JoinUndoesSplit(token, '.');
    assert pieces == [pieces[0], pieces[1], pieces[2]];
    assert Free(pieces[0], {'.'}) && Free(pieces[1], {'.'}) && Free(pieces[2], {'.'});
    JoinOfThree(pieces, '.');
  }

  lemma JoinOfThree(pieces: seq<string>, c: char)
    requires |pieces| == 3
    ensures Join(pieces, c) == pieces[0] + [c] + (pieces[1] + [c] + pieces[2])
  {
    assert pieces[1..][1..] == [pieces[2]];
    assert Join(pieces[1..], c) == pieces[1] + [c] + Join([pieces[2]], c);
  }

  // ---- which sessions are valid ------------------------------------------------------

  /** A session cookie of this type with a user, an expiry and an authorization value, kept in
      the cookie or next to it. */
  predicate WellFormed(config: Config, cookie: Cookie, v: View) {
    && cookie.authType == Some("openid")
    && cookie.username.Some? && cookie.username.value != ""
    && cookie.expiryTime.Some? && cookie.expiryTime.value != 0.0
    && cookie.credentials.Some?
    && (Truthy(cookie.credentials.value.authHeaderValue)
        || (cookie.credentials.value.authHeaderValueExtra && Truthy(StoredValue(v, config.storage))))
  }

  /** The recorded expiry is still to come. */
  predicate Current(cookie: Cookie, now: Time)
    requires cookie.credentials.Some?
  {
    cookie.credentials.value.expiryTime.Some? && now < cookie.credentials.value.expiryTime.value
  }

  /** Nothing but a well-formed cookie is valid; one whose token is current is valid as it is;
      one whose token is not is lost without a refresh token. */
  lemma ValidAsItIs(config: Config, cookie: Cookie, v: View, answers: Answers)
    ensures var check := Check(config, cookie, v, answers);
            && (!WellFormed(config, cookie, v) ==> check == Validity(false, cookie, v))
            && (WellFormed(config, cookie, v) && Current(cookie, answers.now) ==> check == Validity(true, cookie, v))
            && (WellFormed(config, cookie, v) && !Current(cookie, answers.now) ==>
                  Truthy(cookie.credentials.value.refreshToken) || check == Validity(false, cookie, v))
  {
    hide StoredValue;
    hide GetExpirationDate;
  }

  /** A token response that renews a session: an identity token whose payload can be read. */
  ghost predicate Renews(reply: Option<TokenResponse>, claimOf: string -> Claim) {
    && reply.Some? && Truthy(reply.value.idToken)
    && exists payload :: Carries(reply.value.idToken.value, payload) && claimOf(payload) != Malformed
  }

  /** Main result: a well-formed session whose token is over is valid if and only if the
      provider, asked with the session's refresh token, answers with a token that can be read.
      The session then records what that answer says, and stores its token. */
  lemma ValidIffRenewed(config: Config, cookie: Cookie, v: View, answers: Answers, refreshToken: string)
    requires ValidConfig(config) && WellFormed(config, cookie, v) && !Current(cookie, answers.now)
    requires cookie.credentials.value.refreshToken == Some(refreshToken) && refreshToken != ""
    ensures var check, reply := Check(config, cookie, v, answers), answers.refresh(refreshToken);
            && (check.valid <==> Renews(reply, config.claimOf))
            && (!check.valid ==> check == Validity(false, cookie, v))
            && (check.valid ==>
                  && check.cookie.(credentials := cookie.credentials) == cookie
                  && check.cookie.credentials.Some?
                  && check.cookie.credentials.value.refreshToken == reply.value.refreshToken
                  && check.cookie.credentials.value.authHeaderValueExtra
                  && check.cookie.credentials.value.authHeaderValue == None
                  && (forall payload :: Carries(reply.value.idToken.value, payload) ==>
                                          SaidBy(config.claimOf(payload))
                                          == Some(check.cookie.credentials.value.expiryTime))
                  && StoredValue(check.view, config.storage) == Some("Bearer " + reply.value.idToken.value))
  {
    hide GetExpirationDate;
    hide Carries;
    hide StoredValue;
    hide StoreValue;
    var reply := answers.refresh(refreshToken);
    if reply.Some? {
      ExpiryIs(reply.value, answers.now, config.claimOf);
      if Truthy(reply.value.idToken) {
        Sizes.StoredAfterStore(v, "Bearer " + reply.value.idToken.value, config.storage);
      }
    }
  }

  /** Validation asks the provider nothing but that: the clock and the answer to the session's
      own refresh token decide. */
  lemma OnlyRefreshTokenIsAsked(config: Config, cookie: Cookie, v: View, answers: Answers, others: Answers)
    requires answers.now == others.now
    requires cookie.credentials.Some? && cookie.credentials.value.refreshToken.Some? ==>
               var refreshToken := cookie.credentials.value.refreshToken.value;
               answers.refresh(refreshToken) == others.refresh(refreshToken)
    ensures Check(config, cookie, v, answers) == Check(config, cookie, v, others)
  {
    hide GetExpirationDate;
    hide StoredValue;
    hide StoreValue;
  }
}
