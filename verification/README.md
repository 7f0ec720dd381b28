# A verified model of the Wazuh dashboard security plugin

The plugin authenticates every request to the dashboard, keeps the session in the browser's
cookies, chooses the tenant a request works in, and edits roles and shared resources. This project
models the parts of it that hold state, arithmetic or structure, and proves what they promise.

**One browser as a transition system.** `SessionMachine` is the centre. Its state is the browser's
cookie jar (`Exchange.Jar`: the session cookie and the split cookies); its steps are requests, one
at a time: any request through the authentication handler, the tenant switch, the OpenID login,
callback, logout and fragment-capture routes, and the token logout. A request opens the jar into an
`Exchange.RawRequest`, whose response cookies the handlers change, and the response is folded back
into the jar. Routes that need authentication work on the exchange the authentication handler has
already written to. Each handler is a method, proved to do exactly what its specification function
says; `SessionMachine.Serve` ties all of them to the machine's step, and the `Session…` modules
prove what holds over whole runs:

* `SessionTenant`: an authenticated request leaves the selected tenant stored, later ones keep
  selecting it, and exactly which events make the browser forget it.
* `SessionRequests`: exactly which requests are let in, as whom, and what they are sent on with.
* `SessionRejections`: how every other request is answered, and that no route runs for it.
* `SessionCookies`: what the session cookie says after a request.
* `SessionLogin` and `SessionRefresh`: an OpenID login from the first redirect to the requests that
  live on it, and which refresh token a session asks the provider with.
* `SessionExpiry`: a token session never outlives its token, but for one kind of tenant switch and
  for a keep-alive that reads another header.
* `SessionCredentials`: the expiry an OpenID session records is its token's, and when it is not.
* `SessionRenewal`: a renewed OpenID token is the one sent, at once and until it expires.
* `SessionCodeFlow`: one session per nonce, and only for the last nonce issued.
* `SessionAccess`: when a session starts, and what a logout ends and leaves behind.
* `SessionExamples`: concrete inputs on the failing side of these results' conditions.

`TenantChoice`, `JwtTokens` and `OpenIdTokens` say in their own terms what the tenant resolver and
the two authentication types promise. All of them rest on `CookieSplitter` (one long value cut over
several cookies), whose laws are in `CookieSplitterSizes` and `CookieSplitterRefinement`, on
`TenantResolver`, `NextUrl`, `JwtAuth`, `OpenIdAuth`, `AuthHandler` and the route modules.

**Formatting only changed lines.** `HunkHeaders`, `LineRanges` and `ChangedLines` model
`scripts/prettier-check-changed.js`: reading unified-diff headers, intersecting line ranges over
several bases, and splicing the selected hunks into the file from the last one to the first.
`ChangedFile` puts them together for one file, from the diffs to the verdict or the rewritten text.

**Structural transformations.** `ResourceSharing`, `PermissionTree`, `IndexPermissions`,
`TenantPermissions` and `SavedObjects` model the share editor and the schema it must satisfy, the
unfolding of nested action groups, the role editor's two forms, and the wrapper that keeps saved
objects apart by tenant.

What lies outside the plugin is a parameter: the clock (read once per request), the backend's and
the identity provider's answers (functions of what is sent to them), `toLowerCase`, `escape`, the
decoding of a token's payload, and deflate with base64 (`CookieSplitter.Codec`, of which only
`Lossless` is used: inflating undoes deflating, and nothing inflates from no content). Times are
real numbers of milliseconds.

What the code does where one would expect otherwise, each stated as a lemma:

* A request that brings its own credentials while its session cookie has expired mints a cookie
  without a tenant, and so works in the default tenant, not in the one the cookie remembers
  (`CredentialsKeepTenantIff`, `LapsedSessionForgetsTenant`).
* Clearing the split cookies removes what the browser sent, not what the request has just written;
  a write followed by a clear in one request is undone exactly when the browser had sent the
  cookies the write filled (`ClearEmptiesIff`, `ClearAfterWriteKeepsValue`). The OpenID logout
  behind a token renewal is such a request, and so is one that brings its own `authorization`
  header (`LogoutRemovesSession`, `LogoutKeepsBroughtToken`).
* Keep-alive honours a token's deadline only if the configured header is `authorization`
  (`KeepAliveHonoursDeadlineIff`, `SlideWithinTokenIff`, `KeepAliveOutlivesToken`), and an answered
  tenant switch that brings a token of its own
  puts the old session's expiry next to the new token (`SwitchWithOwnTokenIff`,
  `SwitchOutlivesNewToken`).
* A renewed token's credentials reach the browser only with keep-alive or a change of tenant
  (`RenewalPersistence`, `RenewedCredentialsAreLost`), and never through an answered tenant switch
  (`SwitchLosesRenewal`).
* Under a multiline flag `^` also matches behind a carriage return or a Unicode line separator, so
  changed text can carry a hunk header of its own (`HunkRangesUndoPrinting`,
  `CarriageReturnHidesHeader`).
* Fix mode drops pure insertions and cannot add or remove the final newline
  (`FixReachesFormattedIff`, `PureInsertionIsDropped`, `MissingNewlineStays`).
* `find` looks elsewhere than the other calls write when the private tenant is selected although
  private tenants are switched off (`FindsWhereWrittenIff`).
* The comment above `validateNextUrl` asks something of urls longer than two characters only; the
  code also refuses two-character paths such as `/a` (`ShortPathsRefused`). The model follows the
  code.

## Model

| member | source | states |
|---|---|---|
| CookieSplitter.SplitValueIntoCookies | server/session/cookie_splitter.ts:88-139 | writes chunk i into cookie i and removes the cookies the value does not need |
| CookieSplitter.UnsplitCookiesIntoValue | server/session/cookie_splitter.ts:141-168 | concatenates the pending cookies if the first one is pending, else the received ones |
| CookieSplitter.ClearSplitCookies | server/session/cookie_splitter.ts:170-181 | removes exactly the cookies the browser sent with content |
| CookieSplitter.SetExtraAuthStorage | server/session/cookie_splitter.ts:71-86 | the compressed content is what gets split |
| CookieSplitter.GetExtraAuthStorageValue | server/session/cookie_splitter.ts:41-63 | the decompressed content, or a failure |
| CookieSplitterSizes.ChunksRestoreValue | server/session/cookie_splitter.ts:123-127 | the chunks concatenate to the value, for every length and number of cookies |
| CookieSplitterSizes.ChunksFitIff | server/session/cookie_splitter.ts:100-119 | every chunk is at most 2666 characters long iff the value is at most 2666 times the number of cookies |
| CookieSplitterSizes.FewestCookies | server/session/cookie_splitter.ts:100-127 | while the value fits, no division into safe pieces occupies fewer cookies |
| CookieSplitterSizes.SmallestLargestChunk | server/session/cookie_splitter.ts:108-127 | when it does not fit, no division into that many pieces has a smaller largest piece |
| CookieSplitterSizes.WrittenElsewhere | server/session/cookie_splitter.ts:129-138 | a write leaves every other cookie alone |
| CookieSplitterSizes.ReadReturnsWritten | server/session/cookie_splitter.ts:88-168 | a read after a write in the same request returns the written value iff there is a cookie to write to or the value is empty |
| CookieSplitterSizes.StoredAfterStore | server/session/cookie_splitter.ts:41-86 | reading the stored content back gives what was stored, whatever the browser sent |
| CookieSplitterRefinement.Store.StoreRefinesOneString | server/session/cookie_splitter.ts:123-181 | over any run of requests, each any mix of writes, clears and reads, the reads are those of one string variable |
| CookieSplitterRefinement.Store.HandlersClearsCover | server/session/cookie_splitter.ts:170-181 | runs in which no request writes and later clears meet the refinement's side condition |
| CookieSplitterRefinement.Store.RespondKeepsContent | server/session/cookie_splitter.ts:149-165 | the next request reads what this one would have read at its end |
| CookieSplitterRefinement.Store.ClearEmptiesIff | server/session/cookie_splitter.ts:170-181 | after a clear a read gives nothing iff every cookie written in this request is one the browser sent |
| CookieSplitterRefinement.Store.ClearAfterWriteKeepsValue | server/session/cookie_splitter.ts:170-181 | on a fresh browser a write followed by a clear keeps the value, in the same request and for the next |
| CookieSplitterRefinement.Store.ClearAfterWriteIff | server/session/cookie_splitter.ts:123-181 | what a write and a clear leave to the next request is nothing iff the clear covers the write |
| TenantResolver.Resolve | server/multitenancy/tenant_resolver.ts:106-190 | the loop over preferences with early returns computes the resolution function |
| TenantResolver.ResolutionUndefinedIff | server/multitenancy/tenant_resolver.ts:115-128 | no tenant iff multitenancy and the global tenant are off, or global and private are off and the user has no tenant besides the own name |
| TenantResolver.ResolutionAdmissible | server/multitenancy/tenant_resolver.ts:129-190 | any result is an available tenant, the global one while enabled, or the private one while enabled |
| TenantResolver.FallbackAvoidsGlobalTenant | server/multitenancy/tenant_resolver.ts:178-190 | with both built-in tenants off, `global_tenant` is chosen unasked only when it is the only candidate |
| TenantResolver.ResolutionIdempotent | server/multitenancy/tenant_resolver.ts:106-190 | asking for the resolved tenant resolves to it again |
| TenantResolver.SelectionIsSticky | server/multitenancy/tenant_resolver.ts:66-103 | a resolved tenant kept in the cookie is selected by every request naming none, whatever the default tenant becomes |
| TenantChoice.AskedIsGiven | server/multitenancy/tenant_resolver.ts:129-146 | whatever is preferred, asking for an own tenant gives it, and asking for a built-in one by any of its names gives that while it is switched on |
| TenantChoice.UnusableIsIgnored | server/multitenancy/tenant_resolver.ts:129-146 | asking for anything else makes no difference |
| TenantChoice.FirstPreferenceIsGiven | server/multitenancy/tenant_resolver.ts:148-176 | with nothing usable asked for, the first preference that stands for a usable tenant is given |
| TenantChoice.FallbackIsGiven | server/multitenancy/tenant_resolver.ts:178-190 | with nothing usable preferred either, the global tenant, else the private one, else the first own one, passing over `global_tenant` while there is another |
| TenantChoice.FirstPlaceWins | server/multitenancy/tenant_resolver.ts:66-89 | three url parameters, two headers, the cookie and the default count in this order |
| JwtAuth.GetCookie | server/auth/types/jwt/jwt_auth.ts:151-172 | the bearer token goes into the split cookies, its capped expiry into the session cookie |
| JwtTokens.BroughtTokenIs | server/auth/types/jwt/jwt_auth.ts:106-150 | a token in the url counts before one in the configured header, and which value is stored and asked about for each |
| JwtTokens.ExpiryIsEarlier | server/auth/types/jwt/jwt_helper.ts:16-32 | a session on a three-part token ends at the default or the token's own expiry, whichever comes first |
| JwtTokens.ValidIff | server/auth/types/jwt/jwt_auth.ts:174-183 | exactly which session cookies are valid |
| JwtAuth.ExpiryWithinDeadline | server/auth/types/jwt/jwt_helper.ts:16-32 | the expiry is at most the default and at most 1000 times a non-zero `exp` (section 4.1.4 of RFC 7519) |
| JwtAuth.KeepAliveHonoursDeadlineIff | server/auth/types/jwt/jwt_auth.ts:185-190 | sliding the expiry respects the stored token's deadline iff the configured header is `authorization` or the slide ends before the deadline |
| OpenIdAuth.GetCookie | server/auth/types/openid/openid_auth.ts:245-260 | the authorization header goes into the split cookies, the session cookie only points to it |
| OpenIdAuth.IsValidCookie | server/auth/types/openid/openid_auth.ts:270-328 | which cookies are valid, and that a renewal replaces the credentials and the stored token together or not at all |
| OpenIdTokens.ExpiryIs | server/auth/types/openid/helper.ts:132-146 | an identity token expires when the middle one of its three parts says; without one the response's seconds count from now |
| OpenIdTokens.ValidAsItIs | server/auth/types/openid/openid_auth.ts:270-285 | nothing but a well-formed cookie is valid, one with a current token as it is, one without a refresh token no longer than that |
| OpenIdTokens.ValidIffRenewed | server/auth/types/openid/openid_auth.ts:287-323 | a session whose token is over is valid iff the provider, asked with the session's refresh token, answers with a readable token, which is then recorded and stored |
| OpenIdTokens.OnlyRefreshTokenIsAsked | server/auth/types/openid/openid_auth.ts:287-300 | the result depends on the provider's answer to that refresh token alone |
| OpenIdAuth.RenewalIsWhatIsSent | server/auth/types/openid/openid_auth.ts:287-377 | after a renewal the header built from the cookie is the new token, whatever was received |
| AuthHandler.AuthHandler | server/auth/types/authentication_type.ts:98-222 | the handler's answer and everything it writes, in every branch |
| AuthHandler.AuthenticateWithCredentials | server/auth/types/authentication_type.ts:109-130 | a request with its own credentials mints a cookie that keeps the browser's tenant |
| AuthHandler.AuthenticateWithSession | server/auth/types/authentication_type.ts:131-173 | a session is validated, possibly renewed, slid, and turned into headers, or cleared |
| AuthHandler.SettleTenant | server/auth/types/authentication_type.ts:175-222 | the tenant is resolved, sent and remembered, with each error outcome |
| SessionRejections.AnswersAreByPath | server/auth/types/authentication_type.ts:98-222 | every request that is not let in gets exactly the answer its pathname, its credentials and its session call for |
| SessionRejections.PassesThroughIff | server/auth/types/authentication_type.ts:98-159 | a request passes through unauthenticated iff its route is open, or it has nothing to log in by and asks for the optional route |
| SessionRejections.RejectedReachesNoRoute | server/auth/types/authentication_type.ts:138-159 | a rejected request is answered by the handler alone and leaves no session cookie |
| SessionRejections.SwitchAnsweredIff | server/multitenancy/routes.ts:44-60 | a switch is carried out iff the request is let in or passes through and can read a session cookie |
| SessionRejections.LoggedOutReachesNoRoute | server/auth/types/authentication_type.ts:138-159 | after a logout, until a session starts, no tenant switch and no further logout reaches its route without credentials |
| SessionCookies.CredentialsMint | server/auth/types/authentication_type.ts:109-124 | accepted credentials leave a cookie with the user the backend names, the type, and the expiry |
| SessionCookies.SessionSlides | server/auth/types/authentication_type.ts:161-200 | a used session keeps its user and type and slides exactly as far as keep-alive and its token allow |
| SessionCookies.TokenSessionIsSent | server/auth/types/authentication_type.ts:168-172 | an accepted token session is sent on with the stored value as `authorization`, or the cookie's under the configured name |
| OpenIdRoutes.Login | server/auth/types/openid/routes.ts:117-242 | initiation records a flow, the callback checks it, and only a complete exchange sets a session |
| OpenIdRoutes.ExchangeCode | server/auth/types/openid/routes.ts:183-217 | nothing is written unless the token call, the backend and the expiry all succeed |
| SessionLogin.InitiationAnswers | server/auth/types/openid/routes.ts:117-166 | refused targets, the recorded flow, and the restart of a callback that does not name it |
| SessionLogin.CallbackIs | server/auth/types/openid/routes.ts:168-240 | a callback establishes a session exactly when each call succeeds, with which cookie and destination, and how each failure is answered |
| SessionLogin.LoginLeaves | server/auth/types/openid/routes.ts:183-217 | a completed login leaves exactly the user, the refresh token if asked for, both expiries, and the token the backend was shown |
| SessionLogin.LoginIsSent | server/auth/types/openid/openid_auth.ts:270-285 | the next session request is accepted and carries exactly the login's token until it or the cookie expires |
| SessionLogin.LoginIsRenewedIff | server/auth/types/openid/openid_auth.ts:287-323 | after the token's expiry the session lives on iff the provider answers exactly the login's refresh token |
| SessionLogin.LoginIsSentUntilItExpires | server/auth/types/openid/openid_auth.ts:270-285 | through any events that bring no other token every session request before the expiry carries the login's token |
| SessionRefresh.RenewalAsksWithLastToken | server/auth/types/openid/openid_auth.ts:287-310 | in every run a session whose token is over lives on only if the provider answers the refresh token that the last recorded response returned |
| OpenIdRoutes.Logout | server/auth/types/openid/routes.ts:249-286 | both stores are cleared unless the stored value is unreadable, and the token hinted to the provider |
| OpenIdRoutes.LogoutHints | server/auth/types/openid/routes.ts:249-286 | the provider is told the token of the stored bearer value; an unreadable value stops the logout |
| JwtRoutes.Logout | server/auth/types/jwt/routes.ts:53-57 | both stores are cleared |
| SessionMachine.RoutesThatClear | server/auth/types/openid/routes.ts:289-320 | capturing the url's fragment and the token logout remove the session cookie |
| SecurityCookie.ReadableIff | server/session/security_cookie.ts:68-89 | a cookie can be read during a login and else exactly until its expiry |
| TenantRoutes.SwitchTenant | server/multitenancy/routes.ts:44-60 | the received cookie, if it validates, is stored with the new tenant |
| SessionMachine.Serve | server/auth/types/authentication_type.ts:98-222 | the handlers, run on a fresh exchange, take exactly the machine's step and give its observation |
| SessionMachine.StepKeepsStore | server/session/cookie_splitter.ts:123-181 | after every step of every handler, from whatever cookies the browser holds, the next request reads exactly what this one stored, kept or cleared |
| SessionMachine.RunStaysCoherent | server/session/cookie_splitter.ts:123-181 | in every run in which no logout leaves a token it has just stored the split cookies stay filled from the first one on |
| SessionTenant.BrowseRemembersTenant | server/auth/types/authentication_type.ts:175-200 | an authenticated request's state, tenant header and stored cookie agree on one tenant that resolves to itself |
| SessionTenant.TenantForgottenIff | server/auth/types/authentication_type.ts:109-200 | whatever the event, the browser's cookie stops remembering a tenant iff the event resets it: a request naming another tenant, own credentials next to no live session while the default is another, an answered switch to another, or a login that starts or completes |
| SessionTenant.SelectedTenantSticks | server/auth/types/authentication_type.ts:116-200 | over any run of events none of which resets it, every authenticated request selects the tenant first selected, sends it and leaves it stored |
| SessionTenant.CredentialsKeepTenantIff | server/auth/types/authentication_type.ts:116-120 | a request with its own credentials that names no tenant keeps the remembered one iff the session cookie has not expired or the default resolves to it |
| SessionExamples.LapsedSessionForgetsTenant | server/auth/types/authentication_type.ts:116-120 | an expired cookie's tenant is replaced by the global one, for any tenant, token and times |
| SessionTenant.SwitchTakesEffect | server/multitenancy/routes.ts:47-56 | the next request naming no tenant works in the tenant switched to, as resolved for the user, or in the default once the cookie has expired |
| SessionTenant.NamedTenantIsSelected | server/multitenancy/tenant_resolver.ts:66-134 | whoever names an own tenant works in it, whatever is remembered, defaulted or preferred |
| SessionTenant.SwitchToOwnTenant | server/multitenancy/routes.ts:47-56 | after a switch to an own tenant the next plain request works in it, whatever is preferred |
| SessionExpiry.StepWithinTokenIff | server/auth/types/authentication_type.ts:109-200 | every step keeps the session within its token's deadline, unless it is an answered switch that puts a new token next to a cookie that outlives it, and then it does not |
| SessionExpiry.SessionNeverOutlivesToken | server/auth/types/jwt/jwt_auth.ts:151-190 | in every run without such a switch, where keep-alive is off or the configured header is `authorization`, the stored session expires no later than the stored token says, and no later than the last request plus the time-to-live |
| SessionExpiry.SlideWithinTokenIff | server/auth/types/jwt/jwt_auth.ts:174-190 | under any header name an accepted session stays within its token iff keep-alive is off, reads `authorization`, or the slide ends before the token does |
| SessionExamples.KeepAliveOutlivesToken | server/auth/types/jwt/jwt_auth.ts:185-190 | with another header name one request slides a session past the deadline of its token |
| SessionExpiry.SwitchWithOwnTokenIff | server/multitenancy/routes.ts:47-56 | an answered switch that brings its own token keeps that bound iff the old session's expiry respects the new token's deadline |
| SessionExamples.SwitchOutlivesNewToken | server/multitenancy/routes.ts:47-56 | for any token that expires before the session the switch breaks the bound |
| SessionRenewal.RenewedTokenIsSentAtOnce | server/auth/types/openid/openid_auth.ts:302-318 | the request that renews is sent on with the new token |
| SessionRenewal.RenewalPersistence | server/auth/types/authentication_type.ts:162-200 | the new token is stored; the new credentials are iff keep-alive is on or the tenant the request resolves to is not the remembered one |
| SessionExamples.RenewedCredentialsAreLost | server/auth/types/authentication_type.ts:162-200 | without keep-alive the browser keeps the old refresh token and expiry next to the renewed token |
| SessionRenewal.RenewedTokenIsSentUntilItExpires | server/auth/types/openid/openid_auth.ts:283-318 | once a renewal has reached the session cookie, every session request before the expiry is sent on with exactly the renewed token, through any events that do not bring another: no accepted credentials of their own, no completed login |
| SessionCredentials.StepBelongsIff | server/auth/types/openid/openid_auth.ts:302-318 | every event keeps the recorded expiry with its token, unless it leaves a session whose old credentials do not fit the token just written |
| SessionCredentials.RecordedExpiryBelongsToToken | server/auth/types/openid/openid_auth.ts:245-318 | in every run without such an event the recorded expiry is that of the stored token |
| SessionCredentials.SwitchLosesRenewal | server/multitenancy/routes.ts:47-56 | an answered switch whose request renewed the session stores the old credentials next to the new token |
| SessionCodeFlow.EstablishConsumesFlow | server/auth/types/openid/routes.ts:152-232 | establishing a session needs the recorded state, redirects to the recorded url and removes the record |
| SessionCodeFlow.SessionOnlyForLastNonce | server/auth/types/openid/routes.ts:117-232 | in every run a session is established only for the nonce last issued, not yet used, and redirects to the url accepted with it, directly or through the fragment page, which stays on the server under a local base path (section 10.12 of RFC 6749) |
| SessionCodeFlow.NonceYieldsOneSession | server/auth/types/openid/routes.ts:117-232 | with fresh nonces no two sessions come from the same one |
| SessionRequests.AuthenticatedIff | server/auth/types/authentication_type.ts:98-222 | a request is authenticated iff its credentials or session are accepted, a tenant is available where tenants are used, and the backend still knows a session's user under the headers sent on; then with exactly these headers, tenant and user |
| SessionAccess.AuthenticatedOnlyIf | server/auth/types/authentication_type.ts:109-222 | whoever is authenticated is whom the backend names for exactly the request's own credentials, or, with an accepted session, for exactly the headers sent on; a rejected session is removed |
| SessionAccess.SessionStartsIff | server/auth/types/authentication_type.ts:109-130 | a browser without a session has one afterwards iff the event is a completed login or brings accepted credentials and is neither an answered switch nor a completed logout |
| SessionAccess.LogoutRemovesSession | server/auth/types/openid/routes.ts:257-262 | a logout removes the session cookie, and the split cookies iff its own request stored no token, renewed or brought, in cookies the browser had not sent |
| SessionExamples.LogoutKeepsBroughtToken | server/auth/types/openid/routes.ts:257-262 | a fresh browser that brings a token to the logout still holds it afterwards |
| SessionAccess.LogoutEndsSession | server/auth/types/jwt/routes.ts:53-57 | after a logout of either kind, through any events, no request is authenticated by its session until an event starts a new one |
| NextUrl.AcceptsIff | server/utils/next_url.ts:64-82 | the accepted urls are the base path, then nothing, a slash, or a slash, a letter or underscore and more path characters, then any query or fragment |
| NextUrl.BasePathShiftsIff | server/utils/next_url.ts:69-79 | a base path shifts the accepted urls by itself iff it has no `?` or `#` |
| NextUrl.AcceptedStaysOnServer | server/utils/next_url.ts:64-82 | under an empty base path or one starting with a single slash nothing accepted is a network-path reference or has a scheme (section 4.2 of RFC 3986) |
| NextUrl.StaysOnServerIff | server/utils/next_url.ts:64-82 | accepted urls stay on the server under exactly these base paths and those under which nothing is accepted |
| NextUrl.ShortPathsRefused | server/utils/next_url.ts:72-79 | a slash and one more path character are refused |
| HunkHeaders.HunkRanges | scripts/prettier-check-changed.js:60-70 | the loop collects the non-empty ranges of the chosen side, line by line |
| HunkHeaders.HeaderIff | scripts/prettier-check-changed.js:61-66 | a line is read as a hunk's header iff it is written as one |
| HunkHeaders.ParsePrintedHeader | scripts/prettier-check-changed.js:61-66 | the pattern reads back every printed header, with counts of 1 left out, whatever follows it |
| HunkHeaders.HunkRangesUndoPrinting | scripts/prettier-check-changed.js:60-70 | reading a printed diff gives its hunks' ranges in order iff no line hides another header |
| HunkHeaders.HunksUndoPrinting | scripts/prettier-check-changed.js:222-232 | the hunks fix mode reads from a printed diff are those printed iff no line hides another header |
| HunkHeaders.CarriageReturnHidesHeader | scripts/prettier-check-changed.js:61 | any header behind a carriage return inside a changed line is read as a hunk |
| LineRanges.Intersect | scripts/prettier-check-changed.js:75-85 | the nested loops compute the pairwise intersections in order |
| LineRanges.IntersectionCovers | scripts/prettier-check-changed.js:75-85 | the intersection covers exactly the lines both lists cover |
| LineRanges.IntersectionSorted | scripts/prettier-check-changed.js:75-85 | sorted disjoint lists give a sorted disjoint list with fewer ranges than both had together |
| LineRanges.OverlapsIffSharedLine | scripts/prettier-check-changed.js:72 | two lists overlap iff some line is in both |
| LineRanges.WrittenCovers | scripts/prettier-check-changed.js:189-206 | the fold over bases covers exactly the lines in every base's ranges, stays sorted, and has no empty range |
| LineRanges.RangesCover | scripts/prettier-check-changed.js:60-70 | the ranges of a diff cover exactly the lines its hunks have on the chosen side |
| ChangedLines.Check | scripts/prettier-check-changed.js:214-216 | check mode reports the replaced ranges that overlap the written lines |
| ChangedLines.Fix | scripts/prettier-check-changed.js:219-237 | fix mode splices the kept hunks into the file from the last one to the first |
| ChangedLines.CheckReportsWhatFixRewrites | scripts/prettier-check-changed.js:214-233 | check mode reports a hunk iff fix mode rewrites it |
| ChangedLines.KeptIffWritten | scripts/prettier-check-changed.js:233 | a hunk is rewritten iff some line it replaces was written by the change |
| ChangedLines.FixReplacesAtOnce | scripts/prettier-check-changed.js:234-236 | splicing in place in reverse order equals replacing all kept hunks at once |
| ChangedLines.FixKeepsOtherLines | scripts/prettier-check-changed.js:219-237 | every line outside the kept hunks survives, moved by the hunks before it, and the length changes by the sum of their differences |
| ChangedLines.OtherLinesKeepOrder | scripts/prettier-check-changed.js:234-236 | the surviving lines keep their order |
| ChangedLines.FixReachesFormattedIff | scripts/prettier-check-changed.js:219-237 | when every replacing hunk is written the result is the formatted text iff nothing is purely inserted and both texts end alike, or nothing is left |
| ChangedLines.PureInsertionIsDropped | scripts/prettier-check-changed.js:233 | a line the formatter only adds is missing from the fixed file |
| ChangedLines.MissingNewlineStays | scripts/prettier-check-changed.js:219-237 | a final newline the formatter adds is missing from the fixed file |
| ChangedFile.WrittenLines | scripts/prettier-check-changed.js:187-206 | the loop over bases finds the lines every base counts as written, a missing base counting all of them |
| ChangedFile.Process | scripts/prettier-check-changed.js:185-241 | one file is passed, reported or rewritten |
| ChangedFile.RewrittenIffInEveryBase | scripts/prettier-check-changed.js:187-241 | for a printed diff a hunk is rewritten, and reported, iff some line it replaces is written relative to every base |
| ChangedFile.WrittenAgainstIs | scripts/prettier-check-changed.js:187-206 | relative to a base the written lines are those of the diff's new side, or all of a file the base has not |
| ChangedFile.ReportedAre | scripts/prettier-check-changed.js:214-216 | check mode reports, in order, the lines each kept hunk replaces |
| ChangedFile.FullyWrittenFileIsFormattedIff | scripts/prettier-check-changed.js:187-241 | a file written in full becomes the formatted text iff nothing is purely inserted and both texts end alike, or nothing is left |
| ResourceSharing.DiffShareWith | public/apps/resource-sharing/resource-sharing-panel.tsx:109-144 | the loops over levels and recipient kinds compute the two differences |
| ResourceSharing.DiffIsExact | public/apps/resource-sharing/resource-sharing-panel.tsx:109-144 | per level and kind, revoking and adding turns the old set into the new one, with nothing superfluous |
| ResourceSharing.DiffIsMinimal | public/apps/resource-sharing/resource-sharing-panel.tsx:109-144 | no other pair with that effect adds or revokes less |
| ResourceSharing.DiffAbsentIffSame | public/apps/resource-sharing/resource-sharing-panel.tsx:137-143 | both parts are absent iff the two states share with the same recipients |
| ResourceSharing.DiffSwaps | public/apps/resource-sharing/resource-sharing-panel.tsx:109-144 | exchanging the states exchanges the parts |
| ResourceSharing.DiffNamesNoneTwice | public/apps/resource-sharing/resource-sharing-panel.tsx:109-144 | nobody is named twice in a difference |
| ResourceSharing.CanSubmitIff | public/apps/resource-sharing/resource-sharing-panel.tsx:291-309 | the button is enabled iff no level is without recipients and there is something to send |
| ResourceSharing.SchemaRefusesIff | server/routes/resource_access_management_routes.ts:23-74 | exactly which bodies the server refuses |
| ResourceSharing.HandleSubmit | public/apps/resource-sharing/resource-sharing-panel.tsx:311-333 | which id, type and recipients are sent; with the button enabled something is sent and fits the schema iff the ids are not empty; an edit sends nothing iff the sharing is the same, and else what turns the old sharing into the new |
| ResourceSharing.SubmissionsFitSchema | public/apps/resource-sharing/resource-sharing-panel.tsx:291-333 | whatever the enabled button submits satisfies the server's schema iff the resource id and type are not empty |
| PermissionTree.PathsAreBoundedWalks | public/apps/configuration/panels/permission-tree/permission-tree.tsx:26-41 | the tree's root paths are exactly the walks of at most five steps in the action-group graph, cyclic or not |
| PermissionTree.NodeShows | public/apps/configuration/panels/permission-tree/permission-tree.tsx:26-41 | a group's node has its actions as children in order, and leaves are shown as such |
| PermissionTree.WholeTreeBounded | public/apps/configuration/panels/permission-tree/permission-tree.tsx:26-41 | with at most b actions per group the tree has at most 1 + b + ... + b^5 nodes |
| IndexPermissions.ResaveIdentityIff | public/apps/configuration/panels/role-edit/index-permission-panel.tsx:67-104 | unbuilding what was built gives the input back iff in each entry all or none of the fields are marked |
| IndexPermissions.EditorShows | public/apps/configuration/panels/role-edit/index-permission-panel.tsx:60-86 | what the editor shows of an entry, the method being `exclude` iff some field is marked |
| IndexPermissions.SaveSends | public/apps/configuration/panels/role-edit/index-permission-panel.tsx:66-104 | what saving sends, each field marked iff the method is `exclude` |
| IndexPermissions.ResaveIdempotent | public/apps/configuration/panels/role-edit/index-permission-panel.tsx:67-104 | doing it twice is doing it once, for any input |
| TenantPermissions.ResaveKeepsAccess | public/apps/configuration/panels/role-edit/tenant-panel.tsx:42-69 | patterns and the kind of access survive, and an entry is unchanged iff its actions are one of the three canonical lists |
| TenantPermissions.EditorShowsAccess | public/apps/configuration/panels/role-edit/tenant-panel.tsx:42-69 | which access is shown for which actions, and which action is saved for it |
| TenantPermissions.ResaveIdempotent | public/apps/configuration/panels/role-edit/tenant-panel.tsx:42-69 | doing it twice is doing it once |
| SavedObjects.Wrapper.AssignNamespace | server/saved_objects/saved_objects_wrapper.ts:211-225 | every writing call uses the same namespace, whatever the shared variable held |
| SavedObjects.Wrapper.Find | server/saved_objects/saved_objects_wrapper.ts:84-134 | a search depends on the scope and its options only, whatever the shared variable held |
| SavedObjects.Run | server/saved_objects/saved_objects_wrapper.ts:53-209 | in any sequence of calls on one wrapper each is answered as if it were the only one |
| SavedObjects.FindsWhereWrittenIff | server/saved_objects/saved_objects_wrapper.ts:106-108 | a search looks where the other calls write iff private tenants are enabled, the tenant is not private, or the user name is empty |
| SavedObjects.NamespacesAre | server/saved_objects/saved_objects_wrapper.ts:106-108 | a private namespace carries the user's name, any other is the tenant itself |
| SavedObjects.PrivateNamespacesDifferIff | server/saved_objects/saved_objects_wrapper.ts:211-225 | two users' private namespaces differ iff their names do |
| SavedObjects.PrivateStaysPrivate | server/saved_objects/saved_objects_wrapper.ts:63-134 | nothing one user's calls write privately is reached by another's searches in the own private tenant, unless asked for by name, and never for `config` |
| SavedObjects.ConfigStaysInNamespace | server/saved_objects/saved_objects_wrapper.ts:109-131 | in any sequence of calls a `config` search reaches a namespace iff it is the own one and asked for |
| SavedObjects.ConfigFoundWhereWrittenIff | server/saved_objects/saved_objects_wrapper.ts:63-134 | in any sequence of calls `config` objects are found where every other call writes iff private tenants are enabled, the tenant is not private, or the user name is empty |
| SavedObjects.OtherTypesReachWhatIsAsked | server/saved_objects/saved_objects_wrapper.ts:109-131 | in any sequence of calls other types are searched in exactly the namespaces asked for |

## Left out

- Basic, SAML, proxy and multiple authentication: the machine covers the token and OpenID types; proxy cookies are minted under one type name and checked under another.
- Reading the session twice in one request: the route behind the authentication handler is assumed to get the cookie as received; were the framework to hand out the same object again, the route would see the slid expiry and renewed credentials, and `SwitchLosesRenewal` would not hold.
- Concurrent requests of one browser: requests are taken one at a time, so interleaved responses are not modelled.
- The framework's own clearing of a session cookie that fails validation: it is not part of this model, and such a cookie is never returned either way.
- Several session cookies sent at once, cookie paths, domains and the Secure flag: one jar with one entry per name.
- Integer-like and inherited property names of JavaScript objects: tenants are a list of distinct keys in enumeration order.
- Tokens whose `exp` is not a number, and digits in hunk headers beyond exact floating point: numbers are exact.
- Saved-object calls without an options object: the namespace is then assigned nowhere; the model returns the namespace such a call would assign.
- `addTenantParameterToResolvedShortLink`, the read-only flag and tenant index migration: URL plumbing, an unused value, and calls into migrators that are not part of this model.
- Git, Prettier, rename maps and temporary files in the script: its inputs are the diff text, the two texts and the per-base ranges.
- Rendering, tables, toasts, route registration and configuration defaults: no invariant beyond the layout.
