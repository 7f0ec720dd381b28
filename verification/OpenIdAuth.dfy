/** Sessions obtained from an OpenID provider (server/auth/types/openid/openid_auth.ts, helper.ts). */
module OpenIdAuth {
  import opened Wrappers
  import opened Text
  import opened SecurityCookie
  import opened Exchange
  import opened CookieSplitter
  import opened AuthContext
  import Sizes = CookieSplitterSizes

  const TYPE := "openid"

  /** The outer None is a thrown error, the inner one a value that compares as not a number. */
  function GetExpirationDate(tokens: TokenResponse, now: Time, claimOf: string -> Claim): Option<Option<Time>> {
    if Truthy(tokens.idToken) then
      var parts := Split(tokens.idToken.value, {'.'});
      if |parts| != 3 then None
      else
        match claimOf(parts[1])
        case Malformed => None
        case NoExp => Some(None)
        case Exp(exp) => Some(Some(exp * 1000.0))
    else if tokens.expiresIn.Some? then Some(Some(now + tokens.expiresIn.value * 1000.0))
    else Some(None)
  }

  predicate RequestIncludesAuthInfo(request: Request) {
    Truthy(Lookup(request.headers, "authorization"))
  }

  function NewCookie(config: Config, userName: string, now: Time): Cookie {
    ExtraCookie(userName, TYPE, now + config.ttl)
  }

  function StoreToken(config: Config, request: Request, v: View): View {
    StoreValue(v, OrEmpty(Lookup(request.headers, "authorization")), config.storage)
  }

  method GetCookie(config: Config, raw: RawRequest, request: Request, userName: string, now: Time)
    returns (cookie: Cookie)
    modifies raw`states
    ensures cookie == NewCookie(config, userName, now)
    ensures raw.GetView() == StoreToken(config, request, old(raw.GetView()))
  {
    SetExtraAuthStorage(raw, OrEmpty(Lookup(request.headers, "authorization")), config.storage);
    cookie := ExtraCookie(userName, TYPE, now + config.ttl);
  }

  predicate LooksValid(config: Config, cookie: Cookie, v: View) {
    && cookie.authType == Some(TYPE)
    && Truthy(cookie.username)
    && TruthyTime(cookie.expiryTime)
    && cookie.credentials.Some?
    && (Truthy(cookie.credentials.value.authHeaderValue) || ExtraValue(config, cookie, v) != "")
  }

  predicate TokenIsCurrent(cookie: Cookie, now: Time)
    requires cookie.credentials.Some?
  {
    cookie.credentials.value.expiryTime.Some? && cookie.credentials.value.expiryTime.value > now
  }

  /** The token response that renews this session, if it needs one and gets one. */
  function Renewal(config: Config, cookie: Cookie, v: View, answers: Answers): Option<TokenResponse> {
    if !LooksValid(config, cookie, v) || TokenIsCurrent(cookie, answers.now)
       || !Truthy(cookie.credentials.value.refreshToken) then None
    else
      var tokens := answers.refresh(cookie.credentials.value.refreshToken.value);
      if tokens.Some? && Truthy(tokens.value.idToken)
         && GetExpirationDate(tokens.value, answers.now, config.claimOf).Some? then tokens
      else None
  }

  function Renewed(config: Config, cookie: Cookie, tokens: TokenResponse, now: Time): Cookie
    requires GetExpirationDate(tokens, now, config.claimOf).Some?
  {
    cookie.(credentials := Some(Credentials(None, true, tokens.refreshToken,
                                            GetExpirationDate(tokens, now, config.claimOf).value)))
  }

  datatype Validity = Validity(valid: bool, cookie: Cookie, view: View)

  /** Validation may replace the cookie's credentials and write the split cookies. */
  function Check(config: Config, cookie: Cookie, v: View, answers: Answers): (r: Validity)
    ensures r.valid ==> r.cookie.credentials.Some?
  {
    var tokens := Renewal(config, cookie, v, answers);
    if tokens.Some? then
      Validity(true, Renewed(config, cookie, tokens.value, answers.now),
               StoreValue(v, "Bearer " + tokens.value.idToken.value, config.storage))
    else
      Validity(LooksValid(config, cookie, v) && TokenIsCurrent(cookie, answers.now), cookie, v)
  }

  method IsValidCookie(config: Config, raw: RawRequest, cookie: Cookie, answers: Answers)
    returns (valid: bool, updated: Cookie)
    modifies raw`states
    ensures Validity(valid, updated, raw.GetView()) == Check(config, cookie, old(raw.GetView()), answers)
  {
    updated := cookie;
    var extra := GetExtraValue(config, raw, cookie);
    if cookie.authType != Some(TYPE) || !Truthy(cookie.username) || !TruthyTime(cookie.expiryTime)
       || cookie.credentials.None? || (!Truthy(cookie.credentials.value.authHeaderValue) && extra == "") {
      return false, updated;
    }
    var credentials := cookie.credentials.value;
    if credentials.expiryTime.Some? && credentials.expiryTime.value > answers.now {
      return true, updated;
    }
    if Truthy(credentials.refreshToken) {
      var tokens := answers.refresh(credentials.refreshToken.value);
      if tokens.None? {
        return false, updated;
      }
      if !Truthy(tokens.value.idToken) {
        return false, updated;
      }
      var expiryTime := GetExpirationDate(tokens.value, answers.now, config.claimOf);
      if expiryTime.None? {
        return false, updated;
      }
      updated := cookie.(credentials := Some(Credentials(None, true, tokens.value.refreshToken, expiryTime.value)));
      SetExtraAuthStorage(raw, "Bearer " + tokens.value.idToken.value, config.storage);
      return true, updated;
    }
    return false, updated;
  }

  function BuildAuthHeaderFromCookie(config: Config, cookie: Cookie, v: View): Headers
    requires cookie.credentials.Some?
  {
    if HasExtra(cookie) then map["authorization" := ExtraValue(config, cookie, v)]
    else if Truthy(cookie.credentials.value.authHeaderValue) then
      map["authorization" := cookie.credentials.value.authHeaderValue.value]
    else map[]
  }

  /** After a renewal the header built from the cookie is the new token, whatever tokens,
      longer or older, the browser sent. */
  lemma RenewalIsWhatIsSent(config: Config, cookie: Cookie, v: View, answers: Answers)
    requires ValidConfig(config) && Renewal(config, cookie, v, answers).Some?
    ensures var r := Check(config, cookie, v, answers);
            && r.valid
            && BuildAuthHeaderFromCookie(config, r.cookie, r.view)
               == map["authorization" := "Bearer " + Renewal(config, cookie, v, answers).value.idToken.value]
  {
    var tokens := Renewal(config, cookie, v, answers);
    Sizes.StoredAfterStore(v, "Bearer " + tokens.value.idToken.value, config.storage);
  }
}
