/** Sessions carried by a JSON web token (server/auth/types/jwt). */
module JwtAuth {
  import opened Wrappers
  import opened Text
  import opened SecurityCookie
  import opened Exchange
  import opened CookieSplitter
  import opened AuthContext

  const TYPE := "jwt"

  /** `authHeader.split(' ')[1]` */
  function BearerToken(authHeader: string): string
    requires "Bearer " <= authHeader
  {
    assert authHeader == "Bearer" + [' '] + authHeader[7..];
    SplitOfConcat("Bearer", ' ', authHeader[7..], {' '});
    Split(authHeader, {' '})[1]
  }

  /** What the middle part of a three-part bearer token says about its expiry. */
  function ClaimOf(authHeader: string, claimOf: string -> Claim): Claim {
    if "Bearer " <= authHeader then
      var parts := Split(BearerToken(authHeader), {'.'});
      if |parts| == 3 then claimOf(parts[1]) else NoExp
    else NoExp
  }

  /** Seconds become milliseconds, capped; None where the payload does not parse. A zero
      `exp` counts as absent, as it does in the source. */
  function GetExpirationDate(authHeader: Option<string>, defaultExpiry: Time, claimOf: string -> Claim): Option<Time> {
    if !Truthy(authHeader) then Some(defaultExpiry)
    else
      match ClaimOf(authHeader.value, claimOf)
      case Malformed => None
      case NoExp => Some(defaultExpiry)
      case Exp(exp) =>
        if exp == 0.0 then Some(defaultExpiry)
        else Some(if exp * 1000.0 < defaultExpiry then exp * 1000.0 else defaultExpiry)
  }

  function GetTokenFromUrlParam(kind: AuthKind, request: Request): Option<string>
    requires kind.Jwt?
  {
    if kind.urlParam != "" && Truthy(Lookup(request.query, kind.urlParam)) then Lookup(request.query, kind.urlParam)
    else None
  }

  function GetBearerToken(kind: AuthKind, request: Request): Option<string>
    requires kind.Jwt?
  {
    var token := GetTokenFromUrlParam(kind, request);
    if token.Some? then Some("Bearer " + token.value)
    else if Truthy(Lookup(request.headers, kind.headerName)) then Lookup(request.headers, kind.headerName)
    else None
  }

  predicate RequestIncludesAuthInfo(kind: AuthKind, request: Request)
    requires kind.Jwt?
  {
    Truthy(Lookup(request.headers, kind.headerName)) || GetTokenFromUrlParam(kind, request).Some?
  }

  function GetAdditionalAuthHeader(kind: AuthKind, request: Request): Headers
    requires kind.Jwt?
  {
    var token := GetTokenFromUrlParam(kind, request);
    if token.Some? then map[kind.headerName := "Bearer " + token.value] else map[]
  }

  /** The new session cookie, or None when the token's payload does not parse; the split
      cookies have been written by then either way. */
  function NewCookie(config: Config, request: Request, userName: string, now: Time): Option<Cookie>
    requires config.kind.Jwt?
  {
    var expiry := GetExpirationDate(GetBearerToken(config.kind, request), now + config.ttl, config.claimOf);
    if expiry.None? then None
    else Some(ExtraCookie(userName, TYPE, expiry.value))
  }

  function StoreToken(config: Config, request: Request, v: View): View
    requires config.kind.Jwt?
  {
    StoreValue(v, OrEmpty(GetBearerToken(config.kind, request)), config.storage)
  }

  method GetCookie(config: Config, raw: RawRequest, request: Request, userName: string, now: Time)
    returns (cookie: Option<Cookie>)
    requires config.kind.Jwt?
    modifies raw`states
    ensures cookie == NewCookie(config, request, userName, now)
    ensures raw.GetView() == StoreToken(config, request, old(raw.GetView()))
  {
    hide GetExpirationDate;
    hide GetBearerToken;
    hide StoreValue;
    var bearer := GetBearerToken(config.kind, request);
    SetExtraAuthStorage(raw, OrEmpty(bearer), config.storage);
    var expiryTime := GetExpirationDate(bearer, now + config.ttl, config.claimOf);
    if expiryTime.None? {
      return None;
    }
    return Some(ExtraCookie(userName, TYPE, expiryTime.value));
  }

  predicate IsValidCookie(config: Config, cookie: Cookie, v: View) {
    && cookie.credentials.Some?
    && (Truthy(cookie.credentials.value.authHeaderValue) || ExtraValue(config, cookie, v) != "")
    && cookie.authType == Some(TYPE)
    && Truthy(cookie.username)
    && TruthyTime(cookie.expiryTime)
  }

  function BuildAuthHeaderFromCookie(config: Config, cookie: Cookie, v: View): Headers
    requires config.kind.Jwt? && cookie.credentials.Some?
  {
    if HasExtra(cookie) then map["authorization" := ExtraValue(config, cookie, v)]
    else if Truthy(cookie.credentials.value.authHeaderValue) then
      map[config.kind.headerName := cookie.credentials.value.authHeaderValue.value]
    else map[]
  }

  function GetKeepAliveExpiry(config: Config, cookie: Cookie, v: View, now: Time): Option<Time>
    requires config.kind.Jwt? && cookie.credentials.Some?
  {
    var headers := BuildAuthHeaderFromCookie(config, cookie, v);
    GetExpirationDate(Lookup(headers, config.kind.headerName), now + config.ttl, config.claimOf)
  }

  // ---- laws -----------------------------------------------------------------

  /** The moment after which the token itself is worthless, if it says so. */
  function TokenDeadline(authHeader: string, claimOf: string -> Claim): Option<Time> {
    match ClaimOf(authHeader, claimOf)
    case Exp(exp) => if exp == 0.0 then None else Some(exp * 1000.0)
    case _ => None
  }

  /** The claim is read from the middle of a three-part token. */
  lemma ClaimOfThreeParts(first: string, payload: string, last: string, claimOf: string -> Claim)
    requires Free(first, {' ', '.'}) && Free(payload, {' ', '.'}) && Free(last, {' ', '.'})
    ensures ClaimOf("Bearer " + ThreeParts(first, payload, last), claimOf) == claimOf(payload)
  {
    var token := ThreeParts(first, payload, last);
    SplitInThree(first, payload, last);
    ThreePartsHaveNoSpace(first, payload, last);
    BearerTokenOfFree(token);
    hide Split;
    hide BearerToken;
    hide ThreeParts;
  }

  function ThreeParts(first: string, payload: string, last: string): (token: string)
    ensures token != ""
  {
    first + ['.'] + (payload + ['.'] + last)
  }

  lemma SplitInThree(first: string, payload: string, last: string)
    requires Free(first, {'.'}) && Free(payload, {'.'}) && Free(last, {'.'})
    ensures Split(ThreeParts(first, payload, last), {'.'}) == [first, payload, last]
  {
    hide Split;
    hide FirstSeparator;
    SplitOfConcat(first, '.', payload + ['.'] + last, {'.'});
    SplitOfConcat(payload, '.', last, {'.'});
    SplitOfFree(first, {'.'});
    SplitOfFree(payload, {'.'});
    SplitOfFree(last, {'.'});
  }

  lemma ThreePartsHaveNoSpace(first: string, payload: string, last: string)
    requires Free(first, {' ', '.'}) && Free(payload, {' ', '.'}) && Free(last, {' ', '.'})
    ensures Free(ThreeParts(first, payload, last), {' '})
  {
  }

  lemma BearerTokenOfFree(token: string)
    requires Free(token, {' '})
    ensures "Bearer " <= "Bearer " + token && BearerToken("Bearer " + token) == token
  {
    hide Split;
    hide FirstSeparator;
    assert "Bearer " + token == "Bearer" + [' '] + token;
    SplitOfConcat("Bearer", ' ', token, {' '});
    SplitOfFree("Bearer", {' '});
    SplitOfFree(token, {' '});
  }

  lemma ExpiryWithinDeadline(authHeader: Option<string>, defaultExpiry: Time, claimOf: string -> Claim)
    ensures var expiry := GetExpirationDate(authHeader, defaultExpiry, claimOf);
            expiry.Some? ==>
              && expiry.value <= defaultExpiry
              && (Truthy(authHeader) && TokenDeadline(authHeader.value, claimOf).Some? ==>
                    expiry.value <= TokenDeadline(authHeader.value, claimOf).value)
  {
  }

  /** A keep-alive honours the stored token's deadline exactly when the configured header is
      `authorization`, the name the header is rebuilt under, or sliding by the session's
      time-to-live would not pass the deadline anyway. */
  lemma KeepAliveHonoursDeadlineIff(config: Config, cookie: Cookie, v: View, now: Time, deadline: Time)
    requires config.kind.Jwt? && HasExtra(cookie)
    requires TokenDeadline(ExtraValue(config, cookie, v), config.claimOf) == Some(deadline)
    ensures var expiry := GetKeepAliveExpiry(config, cookie, v, now);
            && expiry.Some?
            && (expiry.value <= deadline <==>
                config.kind.headerName == "authorization" || now + config.ttl <= deadline)
  {
    var headers := BuildAuthHeaderFromCookie(config, cookie, v);
    assert Lookup(headers, config.kind.headerName).Some? <==> config.kind.headerName == "authorization";
  }
}
