/** Which token a token session rests on, until when, and what is sent for it. */
module JwtTokens {
  import opened Wrappers
  import opened Text
  import opened SecurityCookie
  import opened Exchange
  import opened CookieSplitter
  import opened AuthContext
  import opened JwtAuth

  // ---- the token a request brings -------------------------------------------------------

  /** A token in the url, under the configured name, if one is configured. */
  predicate InUrl(kind: AuthKind, request: Request, token: string)
    requires kind.Jwt?
  {
    kind.urlParam != "" && token != "" && kind.urlParam in request.query && request.query[kind.urlParam] == token
  }

  predicate InHeader(kind: AuthKind, request: Request, value: string)
    requires kind.Jwt?
  {
    value != "" && kind.headerName in request.headers && request.headers[kind.headerName] == value
  }

  /** Main result: a token in the url counts before one in the configured header. The url's is
      stored, and asked about, as a bearer token; the header's is stored as it is, and the
      request already carries it. With neither the request brings nothing. */
  lemma BroughtTokenIs(kind: AuthKind, request: Request)
    requires kind.Jwt?
    ensures forall token :: InUrl(kind, request, token) ==>
                              && RequestIncludesAuthInfo(kind, request)
                              && GetBearerToken(kind, request) == Some("Bearer " + token)
                              && GetAdditionalAuthHeader(kind, request) == map[kind.headerName := "Bearer " + token]
    ensures (forall token :: !InUrl(kind, request, token)) ==>
              && GetAdditionalAuthHeader(kind, request) == map[]
              && (forall value :: InHeader(kind, request, value) ==>
                                    RequestIncludesAuthInfo(kind, request)
                                    && GetBearerToken(kind, request) == Some(value))
              && ((forall value :: !InHeader(kind, request, value)) ==>
                    !RequestIncludesAuthInfo(kind, request) && GetBearerToken(kind, request) == None)
  {
    if kind.urlParam in request.query && !InUrl(kind, request, request.query[kind.urlParam]) {
      assert kind.urlParam == "" || request.query[kind.urlParam] == "";
    }
    if kind.headerName in request.headers && !InHeader(kind, request, request.headers[kind.headerName]) {
      assert request.headers[kind.headerName] == "";
    }
  }

  // ---- until when it is good --------------------------------------------------------------

  function Earlier(a: Time, b: Time): Time {
    if a < b then a else b
  }

  /** Main result: a session on a three-part bearer token ends at the default or at the token's
      own expiry, whichever comes first; an expiry of zero, or none, counts as absent, and a
      payload that cannot be read is an error. */
  lemma ExpiryIsEarlier(first: string, payload: string, last: string, otherwise: Time, claimOf: string -> Claim)
    requires Free(first, {' ', '.'}) && Free(payload, {' ', '.'}) && Free(last, {' ', '.'})
    ensures GetExpirationDate(Some("Bearer " + ThreeParts(first, payload, last)), otherwise, claimOf) ==
            match claimOf(payload)
            case Malformed => None
            case NoExp => Some(otherwise)
            case Exp(seconds) => Some(if seconds == 0.0 then otherwise else Earlier(seconds * 1000.0, otherwise))
  {
    hide ClaimOf;
    hide ThreeParts;
    ClaimOfThreeParts(first, payload, last, claimOf);
  }

  /** Any other value says nothing about its expiry. */
  lemma OtherTokensAreUnlimited(value: string, otherwise: Time, claimOf: string -> Claim)
    requires !("Bearer " <= value)
    ensures GetExpirationDate(Some(value), otherwise, claimOf) == Some(otherwise)
    ensures GetExpirationDate(None, otherwise, claimOf) == Some(otherwise)
  {
  }

  // ---- which sessions are valid ------------------------------------------------------------

  /** Main result: a session cookie of this type is valid exactly when it has a user, an expiry
      and an authorization value, in the cookie or next to it. */
  lemma ValidIff(config: Config, cookie: Cookie, v: View)
    ensures IsValidCookie(config, cookie, v) <==>
            && cookie.authType == Some("jwt")
            && cookie.username.Some? && cookie.username.value != ""
            && cookie.expiryTime.Some? && cookie.expiryTime.value != 0.0
            && cookie.credentials.Some?
            && (Truthy(cookie.credentials.value.authHeaderValue)
                || (cookie.credentials.value.authHeaderValueExtra && Truthy(StoredValue(v, config.storage))))
  {
    hide StoredValue;
  }

  /** What such a session sends: the stored value as `authorization` where the cookie points to
      one, and else the value in the cookie under the configured name. */
  lemma SentForSession(config: Config, cookie: Cookie, v: View)
    requires config.kind.Jwt? && IsValidCookie(config, cookie, v)
    ensures BuildAuthHeaderFromCookie(config, cookie, v) ==
            if cookie.credentials.value.authHeaderValueExtra
            then map["authorization" := OrEmpty(StoredValue(v, config.storage))]
            else map[config.kind.headerName := OrEmpty(cookie.credentials.value.authHeaderValue)]
  {
    hide StoredValue;
  }
}
