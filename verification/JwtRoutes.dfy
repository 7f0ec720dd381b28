/** Logging out of a token session (server/auth/types/jwt/routes.ts). */
module JwtRoutes {
  import opened Exchange
  import opened CookieSplitter
  import opened AuthContext

  function HandleLogout(config: Config, v: View): View {
    ClearSplit(v, config.storage.cookiePrefix, config.storage.additionalCookies).Clear()
  }

  method Logout(config: Config, raw: RawRequest)
    modifies raw
    ensures raw.GetView() == HandleLogout(config, old(raw.GetView()))
  {
    ClearSplitCookies(raw, config.storage.cookiePrefix, config.storage.additionalCookies);
    raw.ClearSession();
  }
}
