# Verification of the multi-tenant API's core

This project models the parts of the repository that keep tenants apart, keep limits, and keep secrets out of logs, and
proves what they promise. `dafny verify dfyconfig.toml` checks all of it.

| module | models | main results |
|---|---|---|
| `Store` | one table, three-valued `where`, unique indexes, every top-level operation | the engine both sides of the refinement run on |
| `TenantScope`, `TenantClient` | the scope decision, and the client that runs, checks and re-runs | `AllOperations` is exactly the specified step |
| `TenantIsolation`, `TenantRefinement` | one tenant's private store | a call through the client is the call on the private store, if and only if two conditions hold; interleaved runs; the frame |
| `TenantLaws` | the same client, model by model and column by column | who is refused; every row read, written or taken is the tenant's |
| `SlidingWindow` | the script on a sorted set, with expiry | at most `limit` per window under clock skew, and on one clock never fewer than asked for; expiry is invisible; the reset is honest |
| `RateLimit`, `Charging`, `LimiterLaws` | one pass of the limiter guard | charging discipline; keys never collide; what a pass asks, and what it answers in either fail mode |
| `Guards`, `OneRequest` | authentication, tenant resolution, authorization; the whole pipeline of one request as a function | the function is what the state machine does with a request that runs alone |
| `NonInterference` | who learns what, who reaches a handler | on routes that name a permission, a caller without an active membership learns nothing, from one response or from any interleaved run; on any route, not what the database says of the organisation |
| `Pipeline`, `PipelineLimit` | all requests, concurrently, one guard or one command a step | at most `limit` handlers per organisation over whole runs; only entitled requests spend |
| `Registry` | the registry check, and cascades in a database | a clean report keeps cascades inside one tenant |
| `Redaction`, `RedactionLaws` | the walk over a cyclic object graph | each object once; nothing secret is left; identity on clean trees; when a second pass changes nothing |
| `IdCodec`, `IpBucket`, `CookieHeader`, `JsonDiff`, `JsonLaws`, `Seed` | codecs, parsers, the OpenAPI diff, the reference-data seed | exact specifications, round trips, convergence |

How it is laid out. What the source does in place is a class or a method with a loop (`Database`, `ScopedClient`, `Redis`,
`RateLimitGuard`, `HttpRequest`, `Redactor`, `Prisma`, `RunChecks`, `EncodeCrockford`, `ParseCookieHeader`); each is proved equal to
a function, and the results are proved about that function. What the source computes by expressions is a function.

Where the code does less than it seems to promise, the condition is exact:

- A scoped call differs from the same call, scope column forced in its payload, on the private store when the rows it would
  leave clash with another tenant's row (uniqueness is global), or when the rewrite makes that call valid where the engine
  would have rejected it. `ValidationLostExactly` lists those: a lookup whose `select` names nothing, and a unique write
  without a unique key on a model whose scope column is one, as the root's `id` is. `RootDeleteWithoutKeyDeletesOwnRoot` is
  the second at work. `RewriteValidatesExactly` compares with the caller's own call instead, and finds a third kind: a write
  whose payload is left out, which the forced scope column completes (`UpdateWithoutDataIsAnswered`).
- The per-window bound is for half-open spans: two admissions exactly one window apart are both allowed
  (`ClosedWindowHoldsOneMore`).
- The advertised reset is honest exactly when the oldest entry is not in the future. One clock guarantees that; an instance
  whose clock is ahead breaks it (`FutureScoreOutlastsReset`).
- A clean registry report does not look at a cascading key from the tenant root to a global model; cascades stay safe exactly
  when there is none. An organisation that cascades from its owner is such a model (`OwnedOrganizationIsNotReported`). With
  such a key, deletes of a tenant's own rows still spare other tenants exactly when no cascading keys lead from a
  tenant-scoped model through global ones to the root (`TenantDeletesSafeExactly`, `HomedOwnerIsNotReported`).
- A second redaction changes nothing exactly when no unreadable marker stands under a secret key or on an object at the
  deepest level. Only a throwing getter leaves such a marker.
- The OpenAPI diff misses two kinds of difference: a numeral too large for a double against null, which print alike, and a `__proto__`
  member on one side only that holds no more than every record inherits.
  A new member named like an inherited function is reported as a change, so as breaking. Removing any member called
  `description` or `summary` is never breaking, even when it is a property of a schema and not its documentation.

## Model

| member | source | states |
|---|---|---|
| TenantIsolation.ScopedWhereSelectsOwnMatches | packages/db/src/tenant-scope.ts:150-160 | the rewritten `where` selects a row exactly when the caller's `where` does and the row is the tenant's, for every filter, nested condition and null |
| TenantIsolation.ScopedUniqueWhereSelectsOwnMatch | packages/db/src/tenant-scope.ts:188-198 | the same for the unique lookup; it is refused exactly when it names another value of the scope column |
| TenantIsolation.MatchesMeans | packages/db/src/tenant-scope.ts:150-160 | what it is for a row to match a `where`: every part holds, unknown counts as not |
| TenantIsolation.NotMatchingMeans | packages/db/src/tenant-scope.ts:150-160 | what it is for a row to fail a `where`, as a surrounding `NOT` asks: some part is false, and unknown is not enough |
| TenantIsolation.FilterMeans | packages/db/src/tenant-scope.ts:150-160 | when a value meets a filter and when it fails it, null and the empty list included |
| TenantIsolation.LookupRefines | packages/db/src/tenant-scope.ts:245-255 | a unique lookup on the shared store finds the tenant's row if that is the one, and then the private store finds the same |
| TenantIsolation.UniqueSplits | packages/db/src/tenant-scope.ts:201-206 | the unique indexes hold on the shared store exactly when they hold on both halves and no own row clashes with a foreign one |
| TenantIsolation.StepKeepsUnique | packages/db/src/tenant-client.ts:54-134 | every call leaves every unique index intact |
| TenantIsolation.ForcedRowsOwned | packages/db/src/tenant-scope.ts:201-206 | every row of a forced payload carries the tenant, whatever the caller and the column defaults say |
| TenantIsolation.InsertableRefines | packages/db/src/tenant-scope.ts:201-206 | skipping duplicates inserts the same rows on the shared and on the private store if and only if no row the private store takes clashes with a foreign one |
| TenantClient.Database.Run | packages/db/src/tenant-client.ts:62-69 | one query changes the model's table as the engine says, and no other table |
| TenantClient.ScopedClient.AllOperations | packages/db/src/tenant-client.ts:54-134 | run, or run, check and strip, or re-run: the answer and the table are those of the specified step, and no other model's table changes |
| TenantRefinement.MissNeverMatches | packages/db/src/tenant-client.ts:112-127 | the contradictory re-run raises the not-found error whatever rows exist, one with the sentinel id included |
| TenantRefinement.StrippedProjectionIsExact | packages/db/src/tenant-scope.ts:121-142 | widening then stripping gives back exactly the projection asked for, and the check reads the row's own tenant |
| TenantRefinement.WideningKeepsAcceptance | packages/db/src/tenant-scope.ts:121-142 | widening never invalidates a lookup, and validates exactly one kind: a `select` that names nothing |
| TenantRefinement.CheckedLookupRefines | packages/db/src/tenant-client.ts:71-127 | a checked lookup answers as on the private store, if and only if its `select` names something |
| TenantRefinement.ForeignRowLooksMissing | packages/db/src/tenant-client.ts:71-127 | a foreign row gives null, or the error of a genuine miss, as an empty table would |
| TenantRefinement.ScopedCallRefinesPrivateStore | packages/db/src/tenant-scope.ts:221-329 | every operation not refused answers and leaves the tenant's rows as the forced call on the private store does, if and only if no row it leaves clashes with a foreign row and no validation is lost; foreign rows never change |
| TenantRefinement.ValidationLostExactly | packages/db/src/tenant-scope.ts:245-323 | exactly which calls the rewrite makes valid that would have been rejected even with the scope column forced in their payload |
| TenantRefinement.RewriteValidatesExactly | packages/db/src/tenant-scope.ts:201-206 | exactly which calls the rewrite makes valid that the engine rejects as the caller wrote them: those, and writes whose payload is left out |
| TenantRefinement.UpdateWithoutDataIsAnswered | packages/db/src/tenant-scope.ts:265-275 | an update of many rows without data is rejected unscoped and answered scoped |
| TenantRefinement.RootDeleteWithoutKeyDeletesOwnRoot | packages/db/src/tenant-scope.ts:277-282 | a root delete by a column that is no key is invalid unscoped, and deletes the caller's organisation scoped |
| TenantRefinement.ForeignKeyRefusesCreate | packages/db/src/tenant-scope.ts:298-304 | a foreign row with the same unique key refuses a create that the private store accepts |
| TenantRefinement.SkippedInsertsStayUnique | packages/db/src/tenant-scope.ts:298-304 | `createMany` with `skipDuplicates` never breaks a unique index |
| TenantRefinement.StepLeavesForeignRows | packages/db/src/tenant-scope.ts:221-329 | one call leaves all foreign rows alone; a refused or unlisted operation leaves the table alone and fails |
| TenantRefinement.RunLeavesForeignRows | packages/db/src/tenant-scope.ts:221-329 | over any sequence of calls foreign rows stay the same rows in order, and every new row is the tenant's |
| TenantRefinement.InterleavedRunRefinesPrivateRun | packages/db/src/tenant-client.ts:54-134 | in any interleaving of all tenants' calls each tenant gets, call by call, the answers of its own calls alone on its private store |
| TenantLaws.RefusedExactly | packages/db/src/tenant-scope.ts:221-329 | for Membership, Invitation and AuditEvent under `organizationId` and Organization under `id`: a call is refused, and the table left alone, exactly without a tenant, when it makes or replaces an organisation, when the operation is not listed, or when a unique write names anything else in that column |
| TenantLaws.OtherModelsPassThrough | packages/db/src/tenant-scope.ts:227-229 | a call on any other model is answered as the engine answers it |
| TenantLaws.ReadsSeeOwnRows | packages/db/src/tenant-scope.ts:258-264 | on those models a read is computed from the rows that carry the tenant in that column and match the caller's `where`, and from nothing else |
| TenantLaws.LookupsSeeOwnRows | packages/db/src/tenant-client.ts:71-127 | a lookup shows the row it finds if that row carries the tenant, in the projection asked for; otherwise nothing, or the not-found error |
| TenantLaws.DeletesTakeOwnRows | packages/db/src/tenant-scope.ts:258-264 | a bulk delete takes those rows, all of them, counts them, and leaves every other row in its place |
| TenantLaws.UpdatesWriteOwnRows | packages/db/src/tenant-scope.ts:266-275 | a bulk update writes the payload over those rows, the tenant in the column whatever the payload says, and over no other |
| TenantLaws.CreatesAddOwnRow | packages/db/src/tenant-scope.ts:298-304 | a create adds the caller's row with the tenant in the column, whatever the payload says |
| TenantLaws.DeleteTakesOwnRow | packages/db/src/tenant-scope.ts:277-282 | a delete by unique key takes the first matching row that carries the tenant, and is not found when there is none |
| TenantLaws.UpdateWritesOwnRow | packages/db/src/tenant-scope.ts:284-296 | an update by unique key writes that row, the tenant kept in the column, and is not found when there is none |
| TenantLaws.UpsertWritesOwnRow | packages/db/src/tenant-scope.ts:309-323 | an upsert writes that row, or adds one with the tenant in the column when there is none |
| TenantLaws.BulkWritesReturnOwnRows | packages/db/src/tenant-scope.ts:266-304 | every row that a bulk write returns is the projection of a row that carries the tenant |
| TenantLaws.CallsTouchOwnRows | packages/db/src/tenant-scope.ts:221-329 | whatever the call, each row that does not carry the tenant occurs as often after it as before |
| SlidingWindow.Redis.ConsumeScript | apps/api/src/common/guards/sliding-window.ts:60-86 | one run of the script on one key: prune, count, add, re-expire, in this order, and no other key changes |
| SlidingWindow.AddHoldsMemberOnce | apps/api/src/common/guards/sliding-window.ts:72 | adding a member that is already there moves it: the set holds it once, with the new score, and keeps every other entry |
| SlidingWindow.ConsumeSlidingWindow | apps/api/src/common/guards/sliding-window.ts:90-138 | the key left behind, and a decision with the limit, the room left and the least whole number of seconds, up to the window, after which the oldest entry is out |
| SlidingWindow.CardinalityNeverExceedsLimit | apps/api/src/common/guards/sliding-window.ts:67-75 | after any run a key holds at most `limit` entries |
| SlidingWindow.LogIsComplete | apps/api/src/common/guards/sliding-window.ts:67-77 | an admission stays in the set until a timestamp has passed it by a window or Redis's clock has |
| SlidingWindow.AtMostLimitPerWindow | apps/api/src/common/guards/sliding-window.ts:49-86 | under skew `d` at most `limit` admissions take effect in any span shorter than the window less `d`, for timestamps in any order |
| SlidingWindow.AtMostLimitPerWindowOnOneClock | apps/api/src/common/guards/sliding-window.ts:49-86 | with one clock, at most `limit` admissions in every half-open interval of one window |
| SlidingWindow.ClosedWindowHoldsOneMore | apps/api/src/common/guards/sliding-window.ts:67 | two admissions exactly one window apart, with a limit of one |
| SlidingWindow.SetIsTheWindow | apps/api/src/common/guards/sliding-window.ts:67-75 | while timestamps never go back, the set that the script without its expiry keeps is exactly the admissions of the last window, in order |
| SlidingWindow.AdmittedIffWindowHasRoom | apps/api/src/common/guards/sliding-window.ts:67-77 | on one clock an attempt is admitted if and only if fewer than `limit` admissions lie in the window that ends with it |
| SlidingWindow.ExpiryNeverChangesAnAnswer | apps/api/src/common/guards/sliding-window.ts:77 | while caller time and Redis time agree and never go back, the script with its expiry replies on every run as the script without it |
| SlidingWindow.RefusalKeepsSet | apps/api/src/common/guards/sliding-window.ts:67-75 | a refusal leaves the set as it is |
| SlidingWindow.RefusedUntilOldestLeaves | apps/api/src/common/guards/sliding-window.ts:67-75 | a full window admits exactly when its oldest entry has left |
| SlidingWindow.ResetIsLeastWholeSecond | apps/api/src/common/guards/sliding-window.ts:112-129 | the reset lies between one second and the window and is the least that suffices |
| SlidingWindow.ResetIsHonest | apps/api/src/common/guards/sliding-window.ts:112-129 | an attempt after the advertised reset is admitted if and only if the oldest entry is not in the future, every earlier one is refused, and refusals in between change nothing |
| SlidingWindow.ResetIsHonestOverRuns | apps/api/src/common/guards/sliding-window.ts:112-129 | on one clock, expiry included: after a refusal and any further refusals, an attempt is admitted once the advertised seconds have gone by and refused if one second fewer has |
| SlidingWindow.FutureScoreOutlastsReset | apps/api/src/common/guards/sliding-window.ts:49-59 | a run on two clocks after which an attempt at the advertised reset is refused |
| SlidingWindow.RemainingIsHonest | apps/api/src/common/guards/sliding-window.ts:131-137 | of any burst of further attempts at the same instant exactly the advertised remainder is admitted |
| SlidingWindow.ReachableSetsHaveNoFutureScores | apps/api/src/common/guards/sliding-window.ts:49-59 | on one clock every reachable set meets the conditions of an honest reset |
| RateLimit.ScopesOf | apps/api/src/common/guards/rate-limit.guard.ts:294-296 | the scopes a pass owns: those of its phase, in the order of evaluation |
| RateLimit.RateLimitGuard.ConsumeScopes | apps/api/src/common/guards/rate-limit.guard.ts:291-329 | the loop over the phase's scopes, to the first refusal or failure |
| RateLimit.RateLimitGuard.WarnUnresolved | apps/api/src/common/guards/rate-limit.guard.ts:360-387 | an unresolved scope is reported once per class and process |
| RateLimit.RateLimitGuard.CanActivate | apps/api/src/common/guards/rate-limit.guard.ts:243-447 | the answer and the windows of the pass; the backend counts as down after a failure and as up after an answer, and only a change is logged; an exempt route touches nothing |
| Charging.KeysAreInjective | apps/api/src/common/guards/sliding-window.ts:24-30 | distinct class, scope and identifier never share a key, even when an identifier holds colons |
| Charging.AddressesShareAWindowIffTheyShareAPrefix | apps/api/src/common/guards/rate-limit.guard.ts:51-86 | two IPv6 callers spend one window exactly when their top 64 bits agree, in any spelling |
| Charging.Ipv4CallersShareAWindowIffSame | apps/api/src/common/guards/rate-limit.guard.ts:51-56 | two IPv4 callers, plain or mapped in any case, spend one window exactly when their four octets are the same; never that of an IPv6 caller |
| Charging.ChargesPrefix | apps/api/src/common/guards/rate-limit.guard.ts:294-329 | the windows charged are a prefix of the declared, resolvable ones |
| Charging.RefusalEndsPass | apps/api/src/common/guards/rate-limit.guard.ts:313-327 | one decision per answered charge, and only the last can refuse |
| Charging.OnlyChargedWindowsChange | apps/api/src/common/guards/rate-limit.guard.ts:294-329 | a window that is not charged is not touched |
| Charging.EachWindowChargedAtMostOnce | apps/api/src/common/guards/rate-limit.config.ts:379-383 | over both passes of a request no window is charged twice, and all others stay as they were |
| Charging.RefusedAddressChangesNoAccount | apps/api/src/common/guards/rate-limit.guard.ts:318-327 | once an address is refused, no account's window changes |
| Charging.TightestIsWorst | apps/api/src/common/guards/rate-limit.guard.ts:186-192 | the window reported is one of those decided, a refusal if there is one, else one with least room |
| Charging.ClosedClassPassesOnlyWhenAdmitted | apps/api/src/common/guards/rate-limit.guard.ts:389-447 | a fail-closed class passes exactly when nothing failed, nothing declared went unresolved altogether, and every window admitted |
| LimiterLaws.AddressIdentifies | apps/api/src/common/guards/rate-limit.guard.ts:143-151 | an address is the request's, or else the socket's, normalised |
| LimiterLaws.AccountIdentifies | apps/api/src/common/guards/rate-limit.guard.ts:152-165 | an account is the digest of the body field the class names, if that is a text and not blank; the authenticated principal when the class names no field |
| LimiterLaws.PassAsksInOrder | apps/api/src/common/guards/rate-limit.guard.ts:291-329 | the tenant pass asks the organisation's window, the edge pass the address's and, after silence or an admission, the account's; it fails exactly when one asked is not answered, and decides as each window was found |
| LimiterLaws.PassCountsWhatItAsks | apps/api/src/common/guards/rate-limit.guard.ts:291-329 | what is counted as declared, listed as unresolved and charged: exactly the scopes asked that declare a window, that also name nobody, whose command was executed |
| LimiterLaws.PassSpends | apps/api/src/common/guards/rate-limit.guard.ts:306-312 | each window charged is as the script leaves the window that the pass found |
| LimiterLaws.OpenClassIsLimitedByRefusalsOnly | apps/api/src/common/guards/rate-limit.guard.ts:389-447 | a class that fails open is limited if and only if a window refuses; no outage and no unresolved scope limits it |
| LimiterLaws.LimitSaysWhy | apps/api/src/common/guards/rate-limit.guard.ts:414-447 | in both modes: a retry time is the reset of the window that refused; the headers are the worst decision of the pass, there exactly when all were answered and there was one; a limit without a retry time means a fail-closed class with a window unanswered or none that could be asked |
| Guards.HttpRequest.AuthenticationGuard | apps/api/src/common/guards/authentication.guard.ts:169-216 | what is refused and what is written on the request |
| Guards.HttpRequest.TenantContextGuard | apps/api/src/common/guards/tenant-context.ts:239-311 | the context is written on every authenticated route, and refused only where a permission is named |
| Guards.AuthenticatesExactly | apps/api/src/common/guards/authentication.guard.ts:108-216 | a route that is not public is passed exactly with a token whose session is resolved and is active, or pending MFA where the route allows that; which refusal every other case gets; what is written |
| Guards.ResolvesExactly | apps/api/src/common/guards/tenant-context.ts:239-311 | who gets a context and what is in it; on a route that names a permission, a 403 for active members of a suspended organisation and a 404 for everybody else without one |
| Guards.AuthorizesExactly | apps/api/src/common/guards/authorization.guard.ts:97-143 | a route that names a permission is passed exactly with a context that holds it; a 404 without a context, and otherwise a 403 naming the permission and the role |
| Guards.OnlyActiveMembersLearnMore | apps/api/src/common/guards/tenant-context.ts:115-135 | membership is judged before the organisation: exactly active members get a context or hear of a suspension |
| Guards.KnownPermissionsNeverWiden | apps/api/src/common/guards/tenant-context.ts:155-157 | a permission survives exactly when it was granted and is known |
| OneRequest.StepKeepsOutcome | apps/api/src/app.module.ts:106-226 | a step of a request, answered by the world, changes nothing about how that request will be answered |
| OneRequest.AloneIsServed | apps/api/src/app.module.ts:106-226 | a request that runs alone in the state machine gets the response and leaves the windows of the whole-pipeline function, and its handler starts exactly when nothing refused |
| OneRequest.AloneGetsThere | apps/api/src/app.module.ts:106-226 | a request that runs alone, with times that do not go back and new command identifiers, is done after at most 48 steps |
| OneRequest.EveryGuardIsAsked | apps/api/src/app.module.ts:106-226 | a request is refused with the first refusal among all ten guards, in the order of registration; its handler runs exactly when none refuses |
| OneRequest.LimiterAnswers | apps/api/src/common/guards/rate-limit.guard.ts:414-447 | a limiter that does not pass a request answers 429 with the retry time of its pass |
| OneRequest.PassKeysOnRequest | apps/api/src/common/guards/rate-limit.guard.ts:143-173 | a pass keys on the address and body that arrived and the organisation that was resolved, under its route's class |
| Pipeline.StagesInOrder | apps/api/src/app.module.ts:106-226 | the guards follow one another in the order of registration |
| NonInterference.NonMembersLearnNothing | apps/api/src/common/guards/tenant-context.ts:239-311 | on a permission route, worlds that differ in the organisation, roles, grants, later guards or the organisation named give a non-member the same response and the same limiter state |
| NonInterference.NonMemberIsRefusedAtResolution | apps/api/src/common/guards/tenant-context.ts:177-179 | what that response is: the edge limiter's, else the authentication refusal, else a plain 404 |
| NonInterference.StepsStayIndistinguishable | apps/api/src/app.module.ts:106-226 | one step of the concurrent pipeline keeps two states indistinguishable when they differ in what is said of the organisations of outsiders on routes that name a permission |
| NonInterference.OutsidersLearnNothing | apps/api/src/app.module.ts:106-226 | over any interleaved run in which outsiders' routes name a permission, changing what the database says about organisations to callers who are active members of none, or which one they name, changes no response, no window and no other request |
| NonInterference.ForeignTenancyChangesNothing | apps/api/src/common/guards/tenant-context.ts:115-135 | on any routes, two runs that differ only in what the database says of organisations to those who are no active members of them end in the same state |
| NonInterference.SuspensionIsToldToMembers | apps/api/src/common/guards/tenant-context.ts:115-135 | once the credential is accepted, a suspension is told if and only if the caller is an active member |
| NonInterference.HandlersRunForEntitledMembersOnly | apps/api/src/common/guards/authorization.guard.ts:97-122 | a handler behind a permission runs only for an active member of an active organisation who holds it |
| NonInterference.HandlersStartForEntitledMembersOnly | apps/api/src/app.module.ts:106-226 | in any interleaved run, a handler behind a permission has started only for a request to which the database once named an active member of an active organisation with that permission |
| NonInterference.HandlersStartForAuthenticatedOnly | apps/api/src/common/guards/authentication.guard.ts:169-216 | in any interleaved run, on a route that is not public a handler has started only for a request with a token whose session was once resolved, and active or allowed to be pending MFA |
| PipelineLimit.RunKeepsInv | apps/api/src/app.module.ts:106-226 | the invariant over every run: windows hold what the history left, charges belong to entitled requests, admitted requests were admitted |
| PipelineLimit.OnlyEntitledRequestsSpend | apps/api/src/common/guards/rate-limit.guard.ts:449-481 | only requests resolved to the organisation, and past authorization where a permission is named, ever spend its window |
| PipelineLimit.HandlersPerOrganizationAreBounded | apps/api/src/common/guards/rate-limit.guard.ts:243-493 | over any interleaved run, Redis failures included, a fail-closed class starts at most `limit` handlers per organisation in any span shorter than the window less the skew |
| Registry.RunChecks | scripts/check-tenant-registry.ts:214-336 | the failures of all rules, in the order they are reported |
| Registry.FindingsAreJustified | scripts/check-tenant-registry.ts:81-192 | the report holds exactly the complaints that are true, each written out: names, columns, accounts, blank reasons, and keys with no action or the cascading one to a model that is neither tenant-owned nor the root |
| Registry.FindingsAreInRuleOrder | scripts/check-tenant-registry.ts:214-336 | failures come rule by rule, the keys last |
| Registry.CleanReportMeans | scripts/check-tenant-registry.ts:81-192 | a report is clean if and only if every model is in exactly one account, the tenant-owned ones are those with `organizationId`, every entry names a model, every reason says something, and no tenant-owned model has an undeclared or cascading key out of the tenants |
| Registry.CascadesStayOutside | scripts/check-tenant-registry.ts:156-192 | with a clean report, no cascading key from the root to a global model, and foreign keys that agree on the tenant: no cascade leads from a global row into a tenant |
| Registry.CleanReportKeepsCascadesInside | scripts/check-tenant-registry.ts:156-192 | under the same three conditions, along any chain of cascades: from a global row no tenant-scoped row is reached, from a tenant's row only that tenant's |
| Registry.SafeExactlyWithoutRootCascade | scripts/check-tenant-registry.ts:172-192 | with a clean report, global deletes are safe in all databases if and only if the root has no cascading key to a global model |
| Registry.RootCascadeReachesTenants | scripts/check-tenant-registry.ts:172-192 | such a key is not reported, and a database shows the deletion it lets through |
| Registry.OwnedOrganizationIsNotReported | scripts/check-tenant-registry.ts:172-192 | a data model with a clean report whose organisation goes with its owner |
| Registry.TenantDeletesSafeExactly | scripts/check-tenant-registry.ts:172-192 | with a clean report, deletes of a tenant's rows spare every other tenant in all databases if and only if no cascading keys lead from a tenant-scoped model through global ones to the root |
| Registry.HomedOwnerIsNotReported | scripts/check-tenant-registry.ts:172-192 | a data model with a clean report in which deleting one tenant can delete another |
| Redaction.Redactor.Redact | packages/observability/src/redaction.ts:134-196 | the walk with its shared seen-set gives the specified value and marks the specified objects |
| Redaction.Redactor.RedactItems | packages/observability/src/redaction.ts:159-161 | items in order, each seeing what earlier ones marked |
| Redaction.Redactor.RedactSlots | packages/observability/src/redaction.ts:163-195 | properties in order, functions dropped, throwing getters marked unreadable |
| Redaction.EachObjectOnce | packages/observability/src/redaction.ts:140-141 | no object is expanded twice on any graph, and exactly the expanded ones are marked |
| Redaction.RedactedIsSafe | packages/observability/src/redaction.ts:134-196 | on any finite graph, cyclic or not, every secret key holds a marker and outside errors no text looks secret |
| Redaction.KeysSurvive | packages/observability/src/redaction.ts:163-195 | redaction keeps every property but functions and `__proto__`, in order, and adds none |
| Redaction.SpelledFragmentIsSecret | packages/observability/src/redaction.ts:78-81 | a key is secret however a fragment in it is spelled |
| RedactionLaws.SecretKeysExactly | packages/observability/src/redaction.ts:14-81 | a key is secret exactly when some part of it spells one of the ten words, in any case and with anything that is no letter in between |
| RedactionLaws.WalkRedacts | packages/observability/src/redaction.ts:134-196 | on any finite graph, position by position: texts, dates, errors with their scrubbed message, items, properties and the markers, in words; exactly a repeated object is circular |
| RedactionLaws.WalkOfTree | packages/observability/src/redaction.ts:134-196 | on an unshared tree the walk over the heap is the recursion over the tree |
| RedactionLaws.CleanTreesSurvive | packages/observability/src/redaction.ts:134-196 | redaction is the identity on unshared clean trees of at most twelve levels |
| RedactionLaws.SecondRedactionChangesNothing | packages/observability/src/redaction.ts:134-196 | without error nodes a second redaction changes nothing if and only if the first result is settled, as it is when nothing throws |
| RedactionLaws.ThrowingSecretIsRedactedLater | packages/observability/src/redaction.ts:164-174 | a throwing getter under a secret key gives two different markers in two passes |
| IdCodec.EncodeCrockford | packages/db/src/id.ts:54-64 | the two loops give the 26 low base32 digits of the bytes' number |
| IdCodec.BodyDeterminesBytes | packages/db/src/id.ts:54-64 | the 26 symbols read back to the number of the 16 bytes |
| IdCodec.EncodingPreservesOrder | packages/db/src/id.ts:54-64 | bytes compare exactly as their encodings do |
| IdCodec.LaterIdsSortLater | packages/db/src/id.ts:83-85 | identifiers with a later 48-bit time sort later |
| IdCodec.NewIdParses | packages/db/src/id.ts:83-94 | every new identifier parses to its prefix |
| IdCodec.ParsesExactly | packages/db/src/id.ts:87-94 | a text parses to a prefix exactly when it is one of the seventeen, an underscore and 26 digits or capitals other than I, L, O and U |
| IdCodec.SameCharacters | packages/contracts/src/ids.ts:8 | the schema's ranges are exactly the encoder's alphabet |
| IdCodec.SchemaAcceptsWhatParses | packages/contracts/src/ids.ts:8-17 | for every registered prefix the schema accepts exactly the strings that parse to it |
| IpBucket.BucketOfSpelling | apps/api/src/common/guards/rate-limit.guard.ts:51-86 | every legal spelling of an IPv6 address gets the bucket of its top 64 bits |
| IpBucket.SameBucketIffSamePrefix | apps/api/src/common/guards/rate-limit.guard.ts:51-86 | two spellings share a bucket exactly when the top 64 bits agree |
| IpBucket.MappedExactly | apps/api/src/common/guards/rate-limit.guard.ts:52-53 | the form that is stripped is `::ffff:`, in any case, before four texts of one to three decimal digits, and no other |
| IpBucket.QuadsShareIffSame | apps/api/src/common/guards/rate-limit.guard.ts:51-56 | for any such four texts, plain or mapped in any case, two addresses share a bucket exactly when they are the same text; no IPv6 address shares it |
| IpBucket.QuadBucket | apps/api/src/common/guards/rate-limit.guard.ts:51-56 | and that bucket is the dotted quad itself |
| IpBucket.GroupIsCanonical | apps/api/src/common/guards/rate-limit.guard.ts:82-85 | a group's bucket form depends on its value only, not on case or leading zeros |
| CookieHeader.ParseCookieHeader | apps/api/src/common/http/cookie-header.ts:55-98 | a name is in the result exactly when one well-formed segment carries it, with that segment's value |
| CookieHeader.ReadCookie | apps/api/src/common/http/cookie-header.ts:116-119 | an empty value reads as absent |
| CookieHeader.PairExactly | apps/api/src/common/http/cookie-header.ts:62-78 | a segment is a cookie exactly when it reads, blanks aside, as a name that is not empty, an equals sign and a value |
| CookieHeader.ParsedExactly | apps/api/src/common/http/cookie-header.ts:55-98 | a name has a value exactly when one segment reads as that name and value and no other segment as that name |
| CookieHeader.SeveralLinesReadAsOne | apps/api/src/common/http/cookie-header.ts:58-60 | several header lines read as one line joined by semicolons |
| CookieHeader.PermutationParsesAlike | apps/api/src/common/http/cookie-header.ts:55-98 | the order of segments does not matter |
| CookieHeader.AdditionsNeverReplace | apps/api/src/common/http/cookie-header.ts:80-93 | segments added before or after never replace a value; they remove it exactly when they repeat its name |
| CookieHeader.TextAroundNeverReplaces | apps/api/src/common/http/cookie-header.ts:80-93 | the same for header text put before or after a header with a semicolon between: no name gets another value, and one is taken away exactly when a segment of that text carries it |
| CookieHeader.AnyTextReachesOutermostSegmentsOnly | apps/api/src/common/http/cookie-header.ts:80-93 | text put around a header even without a semicolon gives no other value to a name that neither its first nor its last segment carries |
| CookieHeader.SentPairsComeBack | apps/api/src/common/http/cookie-header.ts:55-98 | serialising distinct trimmed pairs and parsing gives them back and nothing else |
| JsonDiff.RenderDecides | scripts/check-openapi-diff.ts:100 | leaves print alike exactly when they are equal, strings with escapes included |
| JsonDiff.DiffIsEmptyIffAgree | scripts/check-openapi-diff.ts:67-109 | for all values the diff is empty exactly when they agree where the source looks, inherited members included |
| JsonDiff.DiffIsEmptyIffEqual | scripts/check-openapi-diff.ts:67-109 | for documents without a `__proto__` key the diff is empty exactly when they are equal up to key order, an overflowing numeral counting as null |
| JsonDiff.OverflowPassesForNull | scripts/check-openapi-diff.ts:53 | a numeral too large for a double against null gives no difference |
| JsonDiff.DifferencesAreReal | scripts/check-openapi-diff.ts:67-109 | every difference names a position where the documents differ as it says, and quotes the printed value of each side |
| JsonDiff.SwapMirrors | scripts/check-openapi-diff.ts:67-109 | swapping the documents swaps added with removed and the sides of each change, in the same order |
| JsonDiff.NothingBreaksIffEmbeds | scripts/check-openapi-diff.ts:138-144 | nothing is breaking exactly when the committed document embeds position by position, except at prose-only paths |
| JsonDiff.NewMemberBreaksIffInherited | scripts/check-openapi-diff.ts:76-83 | a new member breaks exactly when its name is that of an inherited function and its path is not prose-only |
| JsonDiff.ProseNamesMayGo | scripts/check-openapi-diff.ts:119-123 | removing a member called `description` or `summary` never breaks, whatever it is |
| JsonDiff.ProtoMemberIsMissedIffItVanishes | scripts/check-openapi-diff.ts:76-83 | a new `__proto__` member goes unseen exactly when it holds no more than records inherit |
| JsonDiff.EmptyProtoMemberIsMissed | scripts/check-openapi-diff.ts:76-83 | an empty `__proto__` member is such a one |
| JsonLaws.ProseExactly | scripts/check-openapi-diff.ts:119-123 | prose is `info`, what starts with `info.`, and paths whose last member is `description` or `summary`; no other path is |
| JsonLaws.PrintedAlikeIffSame | scripts/check-openapi-diff.ts:53 | parsed values of any depth print alike exactly when they are the same, order of keys included, an overflowing numeral read as null |
| JsonLaws.PrintedTextReadsBack | scripts/check-openapi-diff.ts:53 | a printed string reads back as the string, escapes included |
| JsonLaws.LessIsUtf16Order | scripts/check-openapi-diff.ts:73 | keys sort by their UTF-16 code units |
| JsonLaws.DecimalReadsBack | scripts/check-openapi-diff.ts:90 | an index prints as its decimal digits, without leading zeros |
| JsonLaws.PathsAreText | scripts/check-openapi-diff.ts:74-91 | the path of a difference is the text of its position: names after dots, the first without, indices in brackets |
| JsonLaws.InheritedExactly | scripts/check-openapi-diff.ts:76-83 | the twelve names that the `in` test finds on every record |
| Seed.Prisma.PermissionUpsert | packages/db/src/seed.ts:43-48 | a permission row is created once and never rewritten |
| Seed.Prisma.RoleUpsert | packages/db/src/seed.ts:56-61 | a role row keeps its id and takes the reference's name and description |
| Seed.Prisma.RolePermissionDeleteMany | packages/db/src/seed.ts:71-73 | removes exactly the role's grants that are not wanted |
| Seed.Prisma.RolePermissionCreateMany | packages/db/src/seed.ts:75-78 | adds the wanted grants, each once |
| Seed.Prisma.Seed | packages/db/src/seed.ts:37-84 | the loops leave the specified database, count the grants, and raise on an unknown permission |
| Seed.SeedConverges | packages/db/src/seed.ts:37-84 | from any database with unique keys every system role ends with exactly its row of the matrix, other roles, their grants and existing permission rows are untouched, no other role appears, and it raises exactly when the matrix names an unlisted permission |
| Seed.SeedLeavesTheMatrix | packages/db/src/seed.ts:51-80 | a system role ends with the reference's name and description, the id of its old row if it had one, and a grant of exactly the permissions the matrix gives it |
| Seed.SeedCountsTheMatrix | packages/db/src/seed.ts:43-84 | the count returned is the number of entries in the matrix, and a new permission is described by its key |
| Seed.SecondSeedChangesNothing | packages/db/src/seed.ts:37-84 | a second run changes nothing |

## Left out

- Nested includes, nested writes and `cursor` arguments: the rewrite does not see them; row-level security covers them.
- Row-level security, transactions, and foreign-key errors on delete: they belong to the database.
- Prisma's engine beyond `Store`: validation of unknown columns, atomic number operations and `undefined` in payloads, limits on bulk writes, a client-wide `omit`. Unique indexes are checked at the end of a statement.
- Ordering, `distinct`, `skip`, `take` and what `aggregate` and `groupBy` compute: any function of the matched rows.
- A unique index whose columns are written by a database default: defaults are one fixed row per model.
- Redis transport, and scores that are not whole numbers of milliseconds: a command is answered, never executed, or executed with its answer lost. Members with one score keep their order of arrival, where Redis orders them by text; no result reads that order.
- A window of zero seconds: the model deletes the key at once, as Redis does; the bounds are stated for at least one second.
- Hashing and Unicode normalisation of account identifiers: any function.
- Non-HTTP execution contexts, metadata lookup, and the log lines' texts.
- CSRF, cross-site, verified-email, MFA-enrolment and entitlement guards: each an arbitrary verdict at its place in the pipeline.
- Session storage and the membership query: arbitrary answers.
- The wording of registry failures and the loading of the data model.
- The secret-value patterns and the text they leave: one predicate and one function; nothing is claimed about scrubbed text. An invalid date, on which the source raises, and a getter that changes its answer are not in a graph.
- RedactionLaws.SecondRedactionChangesNothing: error nodes are excluded, because nothing is known of their scrubbed message.
- Non-ASCII letters when an address is lower-cased; zone indices; dotted quads embedded in IPv6 other than the mapped form.
- Lone surrogates in strings; two numerals that read as the same double are one numeral.
- JsonDiff.DiffIsEmptyIffEqual: a `__proto__` key is excluded because the code treats one as every record's; the other lemmas say exactly how.
- Random and time bits of new identifiers; any 16 bytes are encoded.
- The report, command-line and file handling of the scripts; the entropy-based secret scan.
- Web screens, mail, object storage, CORS and content-security headers, configuration loading: plumbing with no state of its own to verify.
