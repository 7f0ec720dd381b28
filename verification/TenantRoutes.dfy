/** Choosing a tenant by hand (server/multitenancy/routes.ts). */
module TenantRoutes {
  import opened Wrappers
  import opened SecurityCookie
  import opened Exchange

  function HandleSwitch(v: View, tenant: string, now: Time): View {
    var cookie := v.Session(now);
    if cookie.None? then v else v.Set(cookie.value.(tenant := Some(tenant)))
  }

  /** False for the source's 400 response. */
  method SwitchTenant(raw: RawRequest, tenant: string, now: Time) returns (ok: bool)
    modifies raw`mainWrite
    ensures ok == old(raw.GetView()).Session(now).Some?
    ensures raw.GetView() == HandleSwitch(old(raw.GetView()), tenant, now)
  {
    var cookie := raw.GetSession(now);
    if cookie.None? {
      return false;
    }
    raw.SetSession(cookie.value.(tenant := Some(tenant)));
    return true;
  }
}
