# Auth-SSO: a verified model of the gateway and the portal's authorization core

This project models, in Dafny, the parts of the Auth-SSO repository in which a small mistake would
log users out, leak a credential or hand out a permission, and proves what those parts are for.
`dafny verify dfyconfig.toml` checks everything.

The gateway (Rust) is modelled in

- `Cookie.dfy` — reading and rewriting `Cookie` headers;
- `SetCookie.dfy` — the `Set-Cookie` printer, and the browser behind it: the parser of section 5.2
  and the jar of section 5.3 of RFC 6265, with the Domain attribute;
- `PathMatcher.dfy` — the path screen and classifier, against `remove_dot_segments` of section 5.2.4 of RFC 3986;
- `OauthFlow.dfy` — the OAuth login run with its four temporary cookies;
- `Gateway.dfy` — one request: local answers, filter order, authentication with refresh, and the cookies of
  the request and of the response;
- `SilentRefresh.dfy` — concurrent refreshes racing for a Redis lock;
- `Jwks.dfy` — the signing-key cache, the lock-free throttle and the refresh loop;
- `Acme.dfy` — the certificate renewal schedule.

The portal (TypeScript) is modelled in

- `Departments.dfy` — the department forest, its materialised paths and the data scope read off them;
- `Grants.dfy` — the three operations that hand out roles and permissions;
- `PermissionCache.dfy` — deriving and caching a user's permission context;
- `AuthorizationViews.dfy` — the two derivations of a user's permissions agree;
- `MenuTree.dfy` — permission decisions, route guards and the sidebar menu;
- `StripComments.dfy` — the comment-blanking lexer of the repository guards, against the tokens of ECMAScript.

`Wrappers.dfy`, `Strings.dfy` and `Collections.dfy` hold shared values, string primitives and facts.

Objects and loops that change state in the source are classes and methods here, each proved against a
function of its inputs or old state. The main theorems are about those functions: over every input,
every run of operations, or every interleaving of steps. Clocks, random values, network answers and
database contents are parameters, so the theorems quantify over all of them. Where a property holds
only under a condition, the condition is proved to be exact or a concrete input shows it is needed.

What the proofs found, beyond what the repository says of itself:

- the return target of a login is stored as it was requested; one that carries a Domain attribute is kept by
  the browser under the parent domain, where no callback exit clears it before it expires after 300 seconds
  (`OauthFlow.StrayedTargetSurvivesExit`, and `OauthFlow.TempCookiesGoneAfterExit` for the exact condition);
- the permission cache is described as aligned with the lifetime of an access token, but issuing a token to a
  user extends that user's cached context without reading the database: its age is bounded by 65 minutes for
  the read and for each later issuance, and the bound is reached (`PermissionCache.ContextAge`,
  `PermissionCache.IssuanceKeepsContextAlive`); the model follows the code;
- no static extension makes a path under `/api/` public, but the test is made on the path as sent: behind an
  escaped slash such a path is public, and the upstream reads it under `/api/`
  (`PathMatcher.EncodedSlashIsPublic`, and `PathMatcher.AssetOutsideApiIffNotSpelled` for the exact condition);
- comments are blanked and templates kept only for templates without hidden backticks: after an escaped
  backtick the lexer takes template text for code and code for template text
  (`StripComments.EscapedTickLosesBody`, `StripComments.EscapedTickKeepsComments`), and comments inside `${…}`
  always stay (`StripComments.StripClearsComments`; `StripComments.StaysIffReadBack` says exactly which templates
  are kept);
- the set of administrators is stable only because the break-glass role carries the system mark, as the
  seeding scripts set it (`Grants.AdminsStayTheSame`, `Grants.UnmarkedAdminRoleEscapes`);
- the 30-second deduplication of refreshes rests on every attempt ending within it, which the request
  timeout gives for at most four upstreams (`SilentRefresh.OneAtATimeIffWalksEnd`);
- a certificate that lives less than 178 seconds can be renewed too late by the two-thirds rule, because
  no check comes sooner than a minute after the previous one (`Acme.RenewedBeforeExpiry`);
- with a broken clock, and only then, the pruning of old signing keys becomes visible
  (`Jwks.LookupWithoutClock`).

## Model

| member | source | states |
|---|---|---|
| Grants.GrantStore.AssignRolePermissions | apps/portal/src/lib/role-permission-assignment.ts:64-193 | the override grant: every error branch in order; success replaces exactly the role's bindings and writes one audit row, failure writes nothing |
| Grants.AssignPermissionsIff | apps/portal/src/lib/role-permission-assignment.ts:64-193 | an override succeeds if and only if scope, system mark, activity and the operator's codes allow it; the main refusals exactly |
| Grants.GrantStore.AssignUserRoles | apps/portal/src/lib/user-role-assignment.ts:144-212 | the same for a user's roles |
| Grants.AssignRolesIff | apps/portal/src/lib/user-role-assignment.ts:144-212 | an assignment succeeds if and only if the operator may change that user and may hand out every role listed; the refusals |
| Grants.GrantStore.RemoveUserRole | apps/portal/src/lib/user-role-assignment.ts:215-288 | the same for removing one role |
| Grants.RemoveRoleIff | apps/portal/src/lib/user-role-assignment.ts:215-288 | a removal succeeds if and only if the operator may change that user and the role is not the last one |
| Grants.GrantStore.ValidateRoleAssignment | apps/portal/src/lib/user-role-assignment.ts:83-137 | refuses a role for exactly the source's reasons: missing department or role, foreign or disabled role, no operator, system role, codes beyond the operator |
| Grants.GrantStore.GroupByRole | apps/portal/src/lib/user-role-assignment.ts:123-128 | the loop over joined rows collects per role exactly the codes of its rows |
| Grants.WhatUsersHold | apps/portal/src/lib/authz/operator.ts:72-104 | a user's codes and the break-glass role, on the rows of the tables |
| Grants.StepTakesEffect | apps/portal/src/lib/user-role-assignment.ts:183-283 | after a successful step every row of both tables is there exactly when the step says so: listed, removed or untouched |
| Grants.StepStaysUnderOperator | apps/portal/src/lib/role-permission-assignment.ts:117-137 | a step by a non-administrator gives nobody a code that the operator does not hold |
| Grants.StepTakesOnlyOwnCodes | apps/portal/src/lib/authz/operator.ts:114-133 | nor does such a step take from anybody a code that the operator does not hold |
| Grants.StepNeverHelpsOperator | apps/portal/src/lib/user-role-assignment.ts:152-159 | no step enlarges its own operator's effective codes |
| Grants.CodesBeyondOperatorsAreConserved | apps/portal/src/lib/authz/operator.ts:160-173 | over every run by non-administrators, the codes beyond those its operators held at the start are conserved: each user holds exactly the same ones at the end |
| Grants.NoEscalation | apps/portal/src/lib/user-role-assignment.ts:106-135 | over every such run, a code some non-administrator holds at the end was held by some non-administrator at the start |
| Grants.AdminsAfterStep | packages/contracts/src/authorization.ts:50-60 | who is administrator after a step: the same users, plus one exactly when the step hands out a break-glass role, which needs a break-glass role not marked as system |
| Grants.AdminsStayTheSame | apps/portal/src/lib/user-role-assignment.ts:110-112 | over every run by non-administrators the set of administrators is unchanged |
| Grants.UnmarkedAdminRoleEscapes | apps/portal/src/lib/user-role-assignment.ts:110-112 | without the system mark that law fails: a department head makes a colleague administrator |
| Grants.NobodyLosesTheLastRole | apps/portal/src/lib/user-role-assignment.ts:245-259 | over every run, by anybody, a user with a role keeps one |
| Grants.RolesStayAtHome | apps/portal/src/lib/user-role-assignment.ts:100-102 | over every run, administrators included, roles stay within their user's own department |
| Grants.OnlyActiveIsGranted | apps/portal/src/lib/role-permission-assignment.ts:96-115 | only existing, active roles and permissions are ever handed out, system roles only by administrators |
| Grants.StepStaysInScope | apps/portal/src/lib/authz/write.ts:187-203 | a successful step, by anybody, targets the subtree of a department of one of the operator's active roles |
| AuthorizationViews.ContextAgreesWithOperator | apps/portal/src/lib/authz/operator.ts:23-62 | on the same tables the operator snapshot and the cached permission context accept the same users and decide every code alike |
| Jwks.MergeKeys | apps/gateway/src/jwks.rs:170-197 | the merge loop: all new keys stamped now, old ones kept only when not replaced and in grace |
| Jwks.JwksCache.ApplyDiscovery | apps/gateway/src/jwks.rs:406-425 | one store replaces keys and metadata together, or an error changes nothing |
| Jwks.RefusedFetch | apps/gateway/src/jwks.rs:406-425 | a fetch is refused exactly for an empty key set or a broken clock |
| Jwks.DiscoveryIsLatest | apps/gateway/src/jwks.rs:406-425 | over every history the metadata is that of the last accepted fetch |
| Jwks.JwksCache.Key | apps/gateway/src/jwks.rs:242-251 | lookup with the age test, off when the clock is broken |
| Jwks.LookupIsLatestPublication | apps/gateway/src/jwks.rs:168-197 | for every history of fetches under a non-decreasing clock, a lookup gives the latest publication of the key id if under 24 hours old, else nothing: pruning is never observable |
| Jwks.LookupWithoutClock | apps/gateway/src/jwks.rs:244-244 | with a broken clock pruning is observable, and exactly when |
| Jwks.JwksCache.RequestRefreshIfDue | apps/gateway/src/jwks.rs:258-273 | one uninterrupted throttle call wins exactly when the interval has passed, and does what its four steps do in the interleaved model |
| Jwks.WinsAreSpaced | apps/gateway/src/jwks.rs:258-273 | in every interleaving of load and compare-exchange steps, whatever the clocks read, stored timestamps increase by at least the interval |
| Jwks.FewWinsInAnyWindow | apps/gateway/src/jwks.rs:258-273 | so at most (b-a)/m+1 wins carry a timestamp in [a,b] |
| Jwks.JwksRefreshService.TryRefreshFromAny | apps/gateway/src/jwks.rs:604-626 | the upstream walk applies the first acceptable fetch, else reports the last error and changes nothing |
| Jwks.WalkOutcome | apps/gateway/src/jwks.rs:604-626 | on the raw fetches: the first one with keys and a clock decides, else the last one's error |
| Jwks.JwksRefreshService.BackoffDelay | apps/gateway/src/jwks.rs:583-601 | counter and delay after an attempt |
| Jwks.JwksRefreshService.RefreshOnce | apps/gateway/src/jwks.rs:698-717 | one turn of the refresh loop |
| Jwks.JwksRefreshService.AwaitFirstRefresh | apps/gateway/src/jwks.rs:642-671 | traffic starts after the first success or five failures, ten seconds apart; with an empty cache only after five failures |
| Jwks.LoopState | apps/gateway/src/jwks.rs:684-719 | over every run the cache is filled exactly from the first success on, and the counter counts the failures since the last success |
| Jwks.DelayAfterRun | apps/gateway/src/jwks.rs:541-601 | the delay after any run: interval after success, 10 s exactly before the first success, else table entry min(k,4) |
| Jwks.NeverEmptyAgain | apps/gateway/src/jwks.rs:411-424 | once one refresh succeeded the key map is never empty again |
| Jwks.LoopKeepsHistory | apps/gateway/src/jwks.rs:457-484 | the loop's cache is the cache of its publication history, so the lookup law covers every run |
| SilentRefresh.Redis.AcquireNxEx | apps/gateway/src/redis.rs:119-138 | SET NX EX on keys with expiry; fail-open when Redis is down |
| SilentRefresh.Redis.Del | apps/gateway/src/redis.rs:141-152 | DEL, ignored when Redis is down |
| SilentRefresh.TokenRefresher.TryRefresh | apps/gateway/src/auth/refresh.rs:152-196 | one refresh: deduplicated exactly while another holds the lock; else, on the raw answers: skipped exactly when the primary answers that none is needed, rotated to the first tokens given otherwise, failed with all endpoints asked in the remaining case; the lock is released exactly on failure |
| SilentRefresh.OutcomeIsFirstSettlingAnswer | apps/gateway/src/auth/refresh.rs:160-190 | the same three-way law on the raw answers for every refresh that has ended in any interleaving |
| SilentRefresh.DedupedIffAnotherHasSay | apps/gateway/src/auth/refresh.rs:152-158 | in every interleaving a refresh is turned away if and only if another one for the same user started less than 30 s ago and has not failed |
| SilentRefresh.WalkGoesOn | apps/gateway/src/auth/refresh.rs:160-190 | a refresh still under way has got no tokens and no skip from its primary, and always has an endpoint left to ask |
| SilentRefresh.SafeWhenWalksEnd | apps/gateway/src/auth/refresh.rs:152-196 | in every interleaving no user has two refreshes in flight, and after one that kept its lock the next starts at least 30 s later, if walks end inside the TTL |
| SilentRefresh.OneAtATimeIffWalksEnd | apps/gateway/src/http.rs:103-108 | at most one refresh per user in every interleaving if and only if there are at most four upstreams |
| SilentRefresh.SlowWalkOutlivesLock | apps/gateway/src/auth/refresh.rs:90-90 | the violating run for five or more upstreams |
| PermissionCache.DerivedCodes | apps/portal/src/lib/permissions.ts:168-197 | a context lists exactly the codes of active permissions of active roles, each once |
| PermissionCache.DerivedContext | apps/portal/src/lib/permissions.ts:168-197 | and its roles, departments and password mark, each exactly from the active roles of the row |
| PermissionCache.PermissionStore.GetUserPermissionContext | apps/portal/src/lib/permissions.ts:101-234 | the lookup: marks before context before database, and what it writes back |
| PermissionCache.LookupAnswer | apps/portal/src/lib/permissions.ts:101-234 | the answer to every lookup on live keys and database alone |
| PermissionCache.LookupIsRemembered | apps/portal/src/lib/permissions.ts:154-233 | each answer from the database is given again from Redis for exactly its lifetime: 5 s, 60 s, never for an inactive user, an hour and jitter |
| PermissionCache.PermissionStore.RefreshUserPermissionCache | apps/portal/src/lib/permissions.ts:304-326 | delete, read, report success only for a refilled context |
| PermissionCache.PermissionStore.ClearUserPermissionCache | apps/portal/src/lib/permissions.ts:361-371 | drops context and absence mark, keeps the failure mark |
| PermissionCache.ClearForgets | apps/portal/src/lib/permissions.ts:361-371 | a clear forgets that user's context and absence, and nothing of others |
| PermissionCache.PermissionStore.ResolveIssuancePermission | apps/portal/src/lib/permissions.ts:282-289 | refuses denied users, issues on failure without prefill, otherwise rewrites the context with a new lifetime |
| PermissionCache.IssuanceAnswer | apps/portal/src/lib/permissions.ts:282-289 | on live keys and database alone: refused if and only if the user is missing or inactive, issued without prefill exactly on failure |
| PermissionCache.IssuancePrefills | apps/portal/src/lib/permissions.ts:282-289 | an issuance writes back the context it found for a full new lifetime, and nothing of others |
| PermissionCache.IssuanceAfterFlush | apps/portal/src/lib/permissions.ts:282-326 | over every run: right after a refresh or clear, with no failure mark, an issuance is refused if and only if the user is missing or inactive in the current version |
| PermissionCache.IssuedOnlyToActive | apps/portal/src/lib/permissions.ts:282-289 | over every run, whatever fails: a prefilled issuance goes only to a user active in some version at or after the last flush |
| PermissionCache.NoOlderContext | apps/portal/src/lib/permissions.ts:101-234 | in every run of lookups, issuances, refreshes, clears and writes, whatever a lookup grants was derived from a database version at or after the user's last refresh or clear |
| PermissionCache.FloorRises | apps/portal/src/lib/permissions.ts:304-371 | every refresh or clear that reaches Redis raises that floor to the current version, and nothing lowers it |
| PermissionCache.RefreshOkIsCurrent | apps/portal/src/lib/permissions.ts:291-326 | a refresh reports ok exactly when Redis and database work, no failure mark is live and the user is active; then the current context is cached for at least 55 minutes |
| PermissionCache.MissingOnlyAfterRead | apps/portal/src/lib/permissions.ts:154-160 | not_found without a database read only within 60 s of a read that found no such user |
| PermissionCache.UnavailableOnlyAfterFailure | apps/portal/src/lib/permissions.ts:225-233 | unavailable without a database read only within 5 s of a failed read |
| PermissionCache.FailureIsNotAbsence | apps/portal/src/lib/permissions.ts:24-32 | a database failure is never recorded as not_found nor as a context |
| PermissionCache.ContextAge | apps/portal/src/lib/permissions.ts:48-53 | for every user and run: a live context was read within 65 minutes, or an issuance to that user after the read wrote it back within 65 minutes; its age is below 65 minutes times one plus the number of those issuances |
| PermissionCache.ContextsAgeOutWithoutIssuance | apps/portal/src/lib/permissions.ts:50-53 | a user to whom nothing is issued has no cached context read more than 65 minutes ago, whatever is issued to others |
| PermissionCache.IssuanceKeepsContextAlive | apps/portal/src/lib/permissions.ts:282-289 | that bound is reached, short of a millisecond per lifetime, for every number of issuances: a user deleted after the first lookup still has the context then |
| Cookie.RewriteProtectedCookies | apps/gateway/src/cookie.rs:95-125 | the loop computes the rewritten header |
| Cookie.ExtractIsLookup | apps/gateway/src/cookie.rs:54-58 | extraction finds the first cookie of that name among the header's parsed cookies |
| Cookie.ExtractedIs | apps/gateway/src/cookie.rs:54-86 | on the raw segments: the value of the first one that is `name=` behind white space, without one pair of quotes; nothing if there is none |
| Cookie.CookiesOfRewritten | apps/gateway/src/cookie.rs:95-125 | the rewritten header parses to exactly the forwarded cookies |
| Cookie.RewriteHidesRefreshAndSetsAccess | apps/gateway/src/cookie.rs:34-125 | for every header: the refresh cookie is gone, the access cookie reads as the new value, every other `=`-free name reads as before |
| Cookie.AccessRoundTrip | apps/gateway/src/cookie.rs:81-125 | the new access token is read back unchanged if and only if it has no `;` and is not wrapped in quotes |
| Cookie.RewriteIsIdempotent | apps/gateway/src/cookie.rs:95-125 | rewriting twice is rewriting once |
| Cookie.CollapseCookieHeader | apps/gateway/src/cookie.rs:13-28 | joins the header fields, or none |
| Cookie.CollapseKeepsCookies | apps/gateway/src/cookie.rs:13-28 | joining loses no cookie: the first field with the name decides |
| Cookie.CollapsedReadsFields | apps/gateway/src/cookie.rs:14-29 | there is no collapsed header exactly when all fields are empty, and reading it is reading the fields in order |
| SetCookie.SetCookieReceived | apps/gateway/src/oauth.rs:160-163 | a printed Set-Cookie is parsed by a browser to the given name, lifetime and path, the value up to `;` without surrounding white space, and the Domain attribute, if any, that the value carries |
| SetCookie.StoredValueIsValue | apps/gateway/src/oauth.rs:160-163 | the stored value is the printed one if and only if it has no `;` and no surrounding white space |
| SetCookie.ClearIsEmptyCookie | apps/gateway/src/oauth.rs:230-240 | a clearing cookie is the empty cookie with lifetime zero under the same path |
| SetCookie.PrintedIsGuarded | apps/gateway/src/oauth.rs:160-163 | a printed cookie carries the attributes HttpOnly, SameSite=Lax and Secure, whatever its value |
| SetCookie.ReceiveSet | apps/gateway/src/oauth.rs:160-163 | what one printed cookie with a lifetime does to the jar: stored under the host, under the parent domain its value names, or refused for a foreign domain |
| SetCookie.ReceiveClear | apps/gateway/src/oauth.rs:230-240 | a clearing cookie removes the cookie of that name and path under the host itself, and no other |
| SetCookie.ExtractSent | apps/gateway/src/cookie.rs:54-58 | the gateway reads from a browser's Cookie header the first cookie sent under that name |
| OauthFlow.Exchange | apps/gateway/src/oauth_flow.rs:197-241 | the node walk stops at the first node that answers, and skips only unreachable ones |
| OauthFlow.ExchangedFromFirstAnswer | apps/gateway/src/oauth_flow.rs:162-177 | the outcome is that of the first node that answered: tokens from a usable 2xx body, else the error its status or body names; with no answer at all a 502 |
| OauthFlow.SessionOnlyAfterAllChecks | apps/gateway/src/oauth_flow.rs:344-422 | session cookies are written, and the browser is sent to a return target, if and only if state, verifier, exchange and nonce all pass |
| OauthFlow.CallbackLocation | apps/gateway/src/oauth_flow.rs:344-422 | where the browser is sent, on the raw cookies: to the stored target if the same-origin check takes it, else `/`; and for each failed check the login page with its reason |
| OauthFlow.InterceptedIs | apps/gateway/src/oauth_flow.rs:52-72 | which requests are callbacks, on the raw path and query: denied exactly with an `error` parameter, handled exactly with first `code` and first `state` and no `error` |
| OauthFlow.LoginCompletesIff | apps/gateway/src/oauth_flow.rs:92-119 | over every run: a callback completes a login if and only if it brings the pending login's state within 300 s and tokens with its nonce; it then returns to the target still stored; a denied one goes to the login page |
| OauthFlow.LoginReturnsToTarget | apps/gateway/src/oauth_flow.rs:418-420 | from start to end: after any run, whatever other traffic came in between, a login started at an accepted target ends by sending the browser to exactly that target |
| OauthFlow.CookiesAreGuarded | apps/gateway/src/oauth.rs:173-240 | so does every temporary, clearing and session cookie of a login |
| OauthFlow.CallbackExit | apps/gateway/src/oauth_flow.rs:331-422 | the browser's jar after every denied, failed or successful exit: new session cookies exactly when the login passed, and, then and at every later time, a live temporary cookie if and only if one that had strayed to another domain before is still alive |
| OauthFlow.TempCookiesGoneAfterExit | apps/gateway/src/oauth_flow.rs:121-129 | after any run, a callback exit leaves none of the four temporary cookies, then or at any later time, if and only if no login of the run started at most 300 s before that time asked for a return target that strays to a parent domain |
| OauthFlow.RunStrays | apps/gateway/src/oauth.rs:199-205 | over every run and at every time from its end on: the browser holds a live return target under another domain exactly when one of before is still alive or a login of the last 300 s named a domain the browser accepts |
| OauthFlow.StrayedTargetSurvivesExit | apps/gateway/src/gateway.rs:677-690 | every return target `path;Domain=parent` of a host below that parent outlives the callback exit, and for exactly 300 s belongs into every callback request to the host |
| OauthFlow.LoginRoundTrip | apps/gateway/src/oauth_flow.rs:92-119 | over every run of logins, callbacks and other traffic: the check proceeds exactly for the state of the last login since the last exit, within 300 s, with its verifier and nonce; with the return target stored under the host, if no stray is alive; earlier states are rejected |
| OauthFlow.PendingIsLastLogin | apps/gateway/src/oauth.rs:173-207 | that login is the last one started, if no exit came after it; the stored return target is its own, or, if that names another domain, the one of before, if any |
| OauthFlow.ReturnTargetRoundTrip | apps/gateway/src/oauth.rs:199-205 | the return target survives storage if and only if it has no `;` and no surrounding white space |
| OauthFlow.ExpiredLoginIsRejected | apps/gateway/src/oauth.rs:173-207 | more than 300 s after the last login no state is accepted, whatever logins came before |
| Gateway.GatewayCtx.RequestFilter | apps/gateway/src/gateway.rs:520-692 | the order of screening, host check, health and metrics answers, classification, rate limit, callback and authentication, with their refusals, and the context left behind |
| Gateway.GatewayCtx.Check | apps/gateway/src/authenticate.rs:129-189 | verification, refresh, recorded identity and tokens, and the decision; with `Gateway.CheckPasses` and `Gateway.CheckRefuses` what that decision is |
| Gateway.AnswerOfSignedInArea | apps/gateway/src/authenticate.rs:129-189 | the exit of every request to the signed-in area, on its cookie, the expiry, the refresh and the decoder: forwarded if and only if its access token verifies and is unexpired or was renewed to a decodable one; else a navigation starts a login with the four cookies for exactly its path and query, or an internal error without secrets, and any other request is unauthorized |
| Gateway.CheckPasses | apps/gateway/src/authenticate.rs:129-189 | the check passes if and only if the access token verifies and is unexpired or was renewed to a decodable one |
| Gateway.CheckRefuses | apps/gateway/src/authenticate.rs:102-113 | otherwise a navigation is sent to log in and any other request is interrupted, with exactly the renewed pair of cookies |
| Gateway.LoginRedirectIsAuthorize | apps/gateway/src/gateway.rs:677-691 | the login started by the gateway is the one the callback laws of `OauthFlow` speak of |
| Gateway.RoutedAnswers | apps/gateway/src/gateway.rs:597-692 | the exit of every request that is not answered locally: static forwarded, rate-limited refused, callback answered with its cookies, public forwarded, and only the rest reaches the check |
| Gateway.LocalAnswers | apps/gateway/src/gateway.rs:520-566 | a request is refused exactly for a screened path or host, health answers by method |
| Gateway.MetricsAnswer | apps/gateway/src/gateway.rs:567-585 | metrics are shown if and only if a non-empty secret is configured and one of the two headers carries it |
| Gateway.ContextOfRequest | apps/gateway/src/gateway.rs:520-692 | route, path class and joined cookies recorded for every request that passes the local answers |
| Gateway.RotationIsRecorded | apps/gateway/src/authenticate.rs:172-180 | the context records a rotation exactly when there was one |
| Gateway.RotationExit | apps/gateway/src/gateway.rs:677-802 | the response cookies of a request that rotated: the new pair comes last, or nothing is sent, exactly when the pair, a login cookie or the identity towards the upstream cannot be a header value, the login redirect cannot be built, or the upstream is silent |
| Gateway.RotatedReachesBrowser | apps/gateway/src/gateway.rs:677-802 | in every request that rotated, the jar holds both new cookies after the response, on every exit (proxied, 401, login redirect), unless the inputs are those of a lost response, and then it is unchanged |
| Gateway.HeldUnaltered | apps/gateway/src/oauth.rs:210-227 | the pair held is the pair issued if and only if neither has a `;` or surrounding white space |
| Gateway.ForwardedIdentity | apps/gateway/src/gateway.rs:605-692 | a forwarded request carries no identity where its path class needs none; otherwise that of its own verified access cookie, or the one decoded from the tokens rotated for that same user, and never on an expired token alone |
| Gateway.RewriteUpstreamCookies | apps/gateway/src/gateway.rs:448-471 | what happens to the Cookie field by path class: removed, replaced by the rewritten header, or left as it is |
| Gateway.UpstreamNeverSeesRefreshToken | apps/gateway/src/gateway.rs:448-471 | for every forwarded request of an authenticated path: its Cookie field is never left as it was, no upstream can read the refresh token in it, and after a rotation it reads the new access token |
| Gateway.UpstreamReads | apps/gateway/src/gateway.rs:448-471 | what the upstream of a forwarded request reads under every cookie name: nothing for a microservice, the same cookies without refresh token and with the new access token on a protected path, everything elsewhere |
| PathMatcher.PercentDecode | apps/gateway/src/path_matcher.rs:108-134 | the index loop decodes every well-formed escape and nothing else |
| PathMatcher.EscapeIsByte | apps/gateway/src/path_matcher.rs:108-134 | every two-digit escape, in either case, decodes to its byte |
| PathMatcher.OthersAreKept | apps/gateway/src/path_matcher.rs:108-134 | everything that is no such escape is kept |
| PathMatcher.HasDotSegments | apps/gateway/src/path_matcher.rs:97-105 | with its fast path, the same answer as the full check |
| PathMatcher.FastPathAgrees | apps/gateway/src/path_matcher.rs:98-101 | a path without `.`, `%` and `\` has no dot segment |
| PathMatcher.AcceptedIffNormalised | apps/gateway/src/path_matcher.rs:97-105 | a path is accepted if and only if removing dot segments from its decoded, slash-only form is the identity |
| PathMatcher.AcceptedKeepsPrefix | apps/gateway/src/path_matcher.rs:192-206 | an accepted path keeps any plain prefix after normalisation |
| PathMatcher.MicroserviceIffNormalised | apps/gateway/src/path_matcher.rs:192-206 | an accepted path without an escape in its head is a microservice path if and only if its normalised form is below `/api/v1/` and not `/api/v1/auth/` |
| PathMatcher.ClassOfPath | apps/gateway/src/path_matcher.rs:192-206 | the class of every path, on the path and the white list: static exactly below the two directories, then public if listed or with a static ending outside `/api/`, then microservice, and protected exactly in the remaining case |
| PathMatcher.StaticStaysStatic | apps/gateway/src/path_matcher.rs:192-195 | a path classed Static stays under `/_next/` or `/static/` after normalisation |
| PathMatcher.WhitelistedPrefixStays | apps/gateway/src/path_matcher.rs:161-166 | a prefix-white-listed path stays white-listed after normalisation |
| PathMatcher.IsStaticExt | apps/gateway/src/path_matcher.rs:40-63 | lower-casing in the five-byte buffer decides membership in the extension list |
| PathMatcher.AssetIff | apps/gateway/src/path_matcher.rs:65-77 | an asset is exactly a path outside `/api/` that ends in a dot and one of the thirteen extensions, in any case |
| PathMatcher.NewMatcher | apps/gateway/src/path_matcher.rs:141-158 | entries ending in `/` other than `/` become prefixes, the rest exact paths |
| PathMatcher.SpellsIsDecodedPrefix | apps/gateway/src/path_matcher.rs:108-134 | a path spells a text, with escapes or backslashes, exactly when its decoded, slash-only form starts with it |
| PathMatcher.AssetOutsideApiIffNotSpelled | apps/gateway/src/path_matcher.rs:65-77 | an accepted path public by its extension is outside `/api/` as sent, and after normalisation if and only if it does not spell `/api/` |
| PathMatcher.PlainHeadKeepsAssetsOutside | apps/gateway/src/path_matcher.rs:65-77 | without an escape or backslash in its first five characters such a path stays outside `/api/` |
| PathMatcher.EncodedSlashIsPublic | apps/gateway/src/path_matcher.rs:192-206 | every plain file `/api%2f<name>.json` not on the white list is accepted and public, and normalises to `/api/<name>.json` |
| Departments.ValidateNoCircularReference | apps/portal/src/domain/department/department.ts:46-71 | on every row list, cyclic, duplicated or with missing parents, the walk ends and refuses exactly when the department is the new parent or above it |
| Departments.CycleCheckIsExact | apps/portal/src/domain/department/department.ts:73-82 | in a forest the check refuses a move exactly when it would leave the department without a chain to a root |
| Departments.PrefixFindsDescendants | apps/portal/src/domain/department/department.ts:99-101 | e's path equals d's prefix or starts with it plus `/` if and only if e is a proper descendant of d |
| Departments.CoversIsMembership | apps/portal/src/lib/authz/data-scope.ts:118-128 | for every text the five LIKE branches say: the department itself or one of the path's segments |
| Departments.CoversExactlyTheSubtree | apps/portal/src/lib/authz/data-scope.ts:50-83 | in a forest the five branches select exactly the subtree |
| Departments.ScopeIsSubtrees | apps/portal/src/lib/authz/data-scope.ts:86-135 | a data scope is the union of the subtrees of the role departments |
| Departments.DepartmentStore.Create | apps/portal/src/app/(dashboard)/departments/actions.ts:62-104 | create with its guards in order; the new path |
| Departments.CreateGuards | apps/portal/src/app/(dashboard)/departments/actions.ts:62-104 | which error a create gives for which inputs, the data scope included, and what a success needs and adds |
| Departments.DepartmentStore.Update | apps/portal/src/app/(dashboard)/departments/actions.ts:110-196 | update and move with guards, cycle check and bulk path rewrite |
| Departments.UpdateForbidden | apps/portal/src/app/(dashboard)/departments/actions.ts:171-175 | an update is forbidden if and only if the existing row or the parent it names lies outside the data scope |
| Departments.UpdateGuards | apps/portal/src/app/(dashboard)/departments/actions.ts:110-196 | within the scope: which error for which inputs, the circular move on the parent chain included |
| Departments.UpdateTakesEffect | apps/portal/src/app/(dashboard)/departments/actions.ts:110-196 | a successful update stays in scope, sets exactly the given parent and status of that row, and of no other |
| Departments.DepartmentStore.Delete | apps/portal/src/app/(dashboard)/departments/actions.ts:199-234 | delete with its guards in order |
| Departments.DeleteGuards | apps/portal/src/app/(dashboard)/departments/actions.ts:199-234 | which error a delete gives for which inputs; a success removes that row alone |
| Departments.RewriteIsExact | apps/portal/src/app/(dashboard)/departments/actions.ts:122-136 | SQL REPLACE on a descendant's path changes exactly the moved prefix, as ids have one length and no `/` |
| Departments.MoveKeepsForest | apps/portal/src/app/(dashboard)/departments/actions.ts:110-138 | a move that passes the check keeps every chain finite and every stored path of the subtree right |
| Departments.RunKeepsForest | apps/portal/src/app/(dashboard)/departments/actions.ts:51-59 | over every run of creates, moves and deletes: one forest with right paths and at most one root, which once created is never removed, moved or joined by another |
| Departments.RunStaysInScope | apps/portal/src/app/(dashboard)/departments/actions.ts:171-175 | over every run a department in no step's scope keeps its parent and status, is never deleted and gains no child |
| Departments.MoveShiftsScopes | apps/portal/src/lib/authz/data-scope.ts:86-135 | what a move changes in data scopes: the subtree leaves those above the old place, enters exactly those that hold the new parent, and nothing else changes |
| MenuTree.AccessIsMostSpecific | apps/portal/src/lib/route-access.ts:37-44 | the guard of a path is the most specific registered route that governs it |
| MenuTree.RouteOfAddress | apps/portal/src/lib/route-access.ts:37-44 | the same on the raw address: its page is what stands before query and trailing slashes, and its guard the page's own route or, off the dashboard, the longest one it lies below |
| MenuTree.PageGuard | apps/portal/src/lib/route-access.ts:37-44 | a path is open exactly when its route asks for nothing, or one of its codes or the super administrator role is held |
| MenuTree.GuardIgnoresDecoration | apps/portal/src/lib/route-access.ts:38-38 | a query string or trailing slash never changes the guard |
| MenuTree.PathIsShort | apps/portal/src/lib/menu-tree.ts:52-60 | with unique ids the recursion cannot go deeper than there are rows, even if rows off the roots form cycles |
| MenuTree.LevelIsWhatIsShown | apps/portal/src/lib/menu-tree.ts:52-71 | each level has one item, in row order, for exactly the displayed rows |
| MenuTree.ShownExactlyWhenDisplayed | apps/portal/src/lib/menu-tree.ts:52-71 | a row appears if and only if its chain to the root is visible and it or a row reached through visible rows is permitted |
| MenuTree.PermittedIs | apps/portal/src/lib/menu-tree.ts:52-71 | a row is permitted exactly when its own code and the guard of its page are met |
| MenuTree.ItemShowsRow | apps/portal/src/lib/menu-tree.ts:62-70 | an item shows its row, with the defaults for a missing address or icon |
| MenuTree.LeavesArePermitted | apps/portal/src/lib/menu-tree.ts:56-61 | every leaf shown is permitted, its page guard included |
| MenuTree.MorePermissionsShowMore | packages/contracts/src/authorization.ts:73-92 | more roles or permissions never remove a row |
| Acme.RenewalTimeInWindow | apps/gateway/src/acme.rs:607-619 | the renewal point lies in [start,end] if and only if the window is not reversed |
| Acme.EverySecondIsChosen | apps/gateway/src/acme.rs:613-618 | every whole second of the window is the point of some digest |
| Acme.CheckIsCareful | apps/gateway/src/acme.rs:404-449 | on both paths a check issues exactly from the target on; before it a wait is at least 60 s, at most max(60 s, interval or Retry-After), and ends less than a minute after the target |
| Acme.WaitIsExact | apps/gateway/src/acme.rs:404-449 | before the target the wait is the time asked for or the time left, whichever is less, but at least a minute |
| Acme.IssuesWithinAMinute | apps/gateway/src/acme.rs:559-582 | repeated checks end, whichever of the two policies each of them finds: the one that issues does so from its own target on, less than 60 s after the latest target, with at most one check a minute before it |
| Acme.CheckUntilIssue | apps/gateway/src/acme.rs:404-449 | the checks one after the other, each wait at least 60 s and at most the patience of the policy found at that check |
| Acme.RenewedBeforeExpiry | apps/gateway/src/acme.rs:621-645 | the lifetime rule issues before expiry from every start if and only if the certificate lives at least 178 s |
| Acme.RenewedUnderMixedPolicies | apps/gateway/src/acme.rs:404-449 | with such a lifetime the certificate is renewed before expiry also when the CA's window and the lifetime rule take turns |
| Acme.AcmeService.AfterRound | apps/gateway/src/acme.rs:564-578 | one round of the service loop |
| Acme.WaitAfterFailures | apps/gateway/src/acme.rs:593-595 | the wait after the k-th failure in a row is a minute doubled k-1 times, at most an hour |
| StripComments.StripSource | apps/portal/__tests__/helpers/repo-scan.ts:71-107 | the character loop computes the state machine's output |
| StripComments.StripOnlyBlanks | apps/portal/__tests__/helpers/repo-scan.ts:75-75 | same length, newlines in exactly the same places, every other character kept or blanked |
| StripComments.EveryTextIsCleared | apps/portal/__tests__/helpers/repo-scan.ts:71-107 | every text is a sequence of ECMAScript tokens in exactly one way; of a text without hidden backticks and comments in substitutions, stripping keeps all of them except that comments become white space |
| StripComments.StripClearsComments | apps/portal/__tests__/helpers/repo-scan.ts:71-107 | where no template hides a backtick, escaped or nested: strings, templates and code stay and comments are blanked if and only if no comment stands in a `${…}` |
| StripComments.StripTwice | apps/portal/__tests__/helpers/repo-scan.ts:71-107 | stripping twice is stripping once |
| StripComments.NoCommentIsLeft | apps/portal/__tests__/helpers/repo-scan.ts:81-97 | of such a text no comment is left, however the result is read as tokens |
| StripComments.LexOfRender | apps/portal/__tests__/helpers/repo-scan.ts:71-107 | well-formed tokens are found again in the text they make up, nested templates included |
| StripComments.EscapedTickLosesBody | apps/portal/__tests__/helpers/repo-scan.ts:99-104 | a template that starts with an escaped backtick and two slashes loses the rest of its line |
| StripComments.EscapedTickKeepsComments | apps/portal/__tests__/helpers/repo-scan.ts:99-104 | after a template of one escaped backtick a line comment stays |
| StripComments.TemplateStaysIffTicksEven | apps/portal/__tests__/helpers/repo-scan.ts:99-104 | a template whose escaped backticks enclose no quote or slash stays in every surrounding text if and only if they are even in number |
| StripComments.StaysIffReadBack | apps/portal/__tests__/helpers/repo-scan.ts:71-107 | any text that ends in a backtick, so every complete template with its substitutions and nested templates, stays in every surrounding text if and only if the machine keeps it on its own and ends in its code state |

## Left out

- Network, TLS, Redis, database and browser transport: their answers are parameters; which texts the HTTP library takes as a header value is a predicate.
- Cryptography: signature checks, HMAC, hashing and token decoding are opaque functions of their input.
- Gateway.RotatedReachesBrowser: assumes that the new tokens name no other domain, as a JWT has no `;`; and says that the pair does not reach the browser in the cases of `Gateway.Lost`, because those responses are never sent or do not pass the gateway's cookie code.
- Gateway.RewriteUpstreamCookies: a rewritten header that the HTTP library refuses to insert is not modelled; the field is then missing, as if removed.
- Cookie.RewriteHidesRefreshAndSetsAccess: assumes that the new access token has no `;`, because a token with one could spell another cookie; a JWT never has one.
- SetCookie.SetCookieReceived: the Expires attribute, cookie prefixes, size limits and partitioned storage are not modelled, as browsers differ in them; the browser's list of public suffixes is a parameter, and a cookie's identity is its name, domain and path, as in section 5.3 of RFC 6265. An expired cookie stays in the modelled jar but counts as not held; a browser that evicts it at once cannot be told apart (`SetCookie.EvictionIsUnseen`, `SetCookie.EvictionStaysUnseen`).
- OauthFlow.Exchange: what is sent to the token endpoint, the code and the verifier among it, is not modelled; the answers of the nodes are parameters.
- OauthFlow.CheckCallback: the same-origin check of the return target is an opaque function, because it rests on an external URL parser.
- OauthFlow.LoginRoundTrip: the callback path is fixed for the run; a change of the discovered path between the two steps is not modelled. The return target is promised only while no stray is alive, because two cookies of that name are then sent, in either order.
- SilentRefresh.SafeWhenWalksEnd: Redis calls are instant and Redis is up; with Redis down every request refreshes, as `SilentRefresh.TokenRefresher.TryRefresh` states.
- SilentRefresh.TokenRefresher.TryRefresh: reading tokens out of an endpoint's JSON or Set-Cookie answer is summed up as one of three answers.
- PermissionCache.NoOlderContext: each call is atomic; a slow reader that writes back after a refresh is not modelled, and Redis is either up or down for a whole call.
- Grants.AssignedUserRoles: one transaction at a time; what two transactions can see of each other is not modelled, and the format check of ids is left to the database's UUID type.
- Departments.DepartmentStore.Update: names, codes, sort order and timestamps are not modelled; id text with LIKE wildcards cannot occur in UUIDs.
- Departments.RewriteIsExact: relies on ids of one length without `/`, which the UUID column gives.
- MenuTree.BuildTree: the query and its sort order are the input; a property inherited by the route table object is not a route, which gives the same decision as in the source.
- MenuTree.PathIsShort: needs unique ids, the table's primary key; duplicate ids could make the source recurse for ever.
- Jwks.LookupIsLatestPublication: needs a clock that does not go back between refreshes; discovery parsing and URL resolution are not modelled, and counters do not wrap at 2^64.
- Acme.IssuesWithinAMinute: checks and issuing are instant, and the targets of all checks of a run have a common bound.
- StripComments.EveryTextIsCleared: regular-expression literals and JSX text are not tokens, so a quote or slash inside one is read as code, as the lexer reads it; only a newline ends a line comment.
- StripComments.TemplateStaysIffTicksEven: escaped backticks around quotes or slashes have no condition as short; `StripComments.StaysIffReadBack` gives theirs by one run of the machine over the template.
- PermissionCache.ContextAge: an issuance counts when it wrote the context back, so one that met a Redis or database failure does not.
- The ACME challenge store, order exchange and persistence, the rate limiter, router, configuration, token issuing, password and client management: input and output, or members too easy to be worth stating.
