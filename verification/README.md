# Verification of the token, cache, routing and upload logic

This project models the parts of the frontend and mobile code that keep state or
compute something that can go wrong, and proves what that code promises. `dafny verify
dfyconfig.toml` checks it. Lemmas carry `{:induction false}`, so that every inductive
proof is the one that is written down.

**Token refresh** (`packages/api-client`).
`TokenProtocol` is the client as a state machine: one `Caller` per call in progress, one
`Flight` per promise of `performRefresh`, the token store, and the `refreshPromise` slot.
An action is the code one caller or flight runs between two `await`s; consecutive pieces
that touch only the caller's own variables are one action. Any number of calls, logins
and logouts interleave, access tokens expire and the server answers as they like, and
the only assumption is that the server never issues a refresh token twice. A field that
is missing from a token response is the empty string: the client tests both for
truthiness only. `TokenSafety`, `TokenCalls`, `TokenHeaders`, `TokenProgress` and
`TokenFanOut` prove safety, the fate of single calls, where sent tokens come from,
progress, and how far refreshes are shared.
`ApiClients` has the client and the memory storage as classes, `RequestLog` says which
token every event of a request carries, and `SoloCalls` shows that the sequential
specification those classes meet is a run of the machine.

**Lesson cache** (`apps/mobile`).
`LessonTable` says what an LRU eviction is; `LessonCaches` is the cache, the write-through
service and the background sync as a class; `CacheMachine` runs puts, reads and evictions
together with one SQL statement as one step; `CacheBudget`, `CacheAgreement` and `CacheSync`
prove the size bound, agreement with the network and the stable selection of it, and
`CacheSolo` that puts and reads left to themselves are those of the class.  Only
the agreement needs the INSERTs of a lesson to run in the order of their fetches. A JSON text is a value with the length of
its text.

**Routing and tenants** (`apps/web`).
`Tenant` parses hosts, `Middleware` decides where a request goes and follows navigations
through the middleware's own redirects and next-intl's, `SlugMemos` is the slug memo in
place and under overlapping lookups. The configured root domain is a parameter.

**Kernels.** `WeekNumbers`, `Uploads`, `Levels`, `Base64Url` and `JwtExpiry`.

Where the code falls short of its own documentation, the model follows the code and
states exactly when the promise is kept:

- "a fan-out of stale-token requests only burns one refresh token": it burns one for
  every ask that finds the slot empty and a refresh token stored, so at most one exactly
  when no two asks do (`FanOutBurnsOneIff`).  A 401 that arrives after the first flight has
  ended is such an ask (`FanOutMayRefreshTwice`).
- a protected page is let through without a session exactly when its path ends in a
  listed extension (`PageIsServedIff`), as `/dashboard/x.json` does
  (`AssetNameNeedsNoSession`); the comment on the extensions speaks of genuine assets only.
- a request answered with a 2xx throws when the body is not JSON (`CallEndsAsAnswered`,
  `SuccessMayThrow`).
- `getWeekNumber` is wrong for 1 to 3 January of the year 100, whose Thursday is in the
  year 99, which `Date.UTC` takes for 1999 (`WeekNumberFromYear100`).
- the middleware passes the payload segment of a token to `atob` as it is, so it rejects
  every token whose segment has a `-` or `_` (`MiddlewareDecodesIff`, `FreshIsValidIff`),
  for instance that of `{"?":0,"exp":60}` (`FreshButInvalid`).
- a session cookie set on a development subdomain whose `.localhost` is not written in
  lower case has another domain than on the root host the middleware sends it to, unless
  the root domain is itself `localhost` (`CookieDomainSharedIff`); `aziz.LOCALHOST` is one
  (`CapitalLocalhostIsApart`).

## Model

| member | source | states |
|---|---|---|
| TokenSafety.RefreshTokensPresentedOnce | packages/api-client/src/client.ts:306-343 | over every interleaving no refresh token is presented twice and no two refreshes are in flight |
| TokenSafety.StoreHoldsOneGrant | packages/api-client/src/client.ts:122-135 | the two stored tokens are both absent or come from one grant, in every reachable state |
| TokenSafety.StoredTokenIsUsable | packages/api-client/src/client.ts:316-338 | with no refresh running, the stored refresh token has never been presented |
| TokenSafety.JoinersShareTheResult | packages/api-client/src/client.ts:306-311 | all callers that joined one flight get the one value its promise settled to |
| TokenSafety.FinallyDropsOnlyItsOwnPromise | packages/api-client/src/client.ts:308-313 | the slot is emptied only by the caller that filled it, after its promise has settled, so never a later leader's |
| TokenSafety.SettledStays | packages/api-client/src/client.ts:306-314 | a settled promise keeps its value through every step |
| TokenSafety.SignedOutIsAbsorbing | packages/api-client/src/client.ts:161-193 | with no refresh token stored and none in flight, no run without a login brings a token back or presents one |
| TokenSafety.RotationKept | packages/api-client/src/client.ts:316-343 | every step keeps: the stored refresh token is unpresented unless the flight in the slot is using it |
| TokenSafety.LeaderKept | packages/api-client/src/client.ts:306-314 | every step keeps: the slot is filled exactly while one caller leads its flight |
| TokenCalls.CallIsBounded | packages/api-client/src/client.ts:161-193 | among any other calls, at most two sends and three refreshes; a second send only after a 401 of a call that may refresh; a public call sends once |
| TokenCalls.CallEndsAsAnswered | packages/api-client/src/client.ts:171-192 | a call returns iff its last answer was a 2xx with a readable body, gives out what that answer carried, and fires the hook iff it was a 401 of a call that may refresh |
| TokenCalls.SuccessMayThrow | packages/api-client/src/client.ts:282-287 | a run in which a call answered with a 2xx throws, because its body is not JSON |
| TokenCalls.PublicCallsTouchNoTokens | packages/api-client/src/client.ts:218-221 | no step of a public call reads, writes or sends a token |
| TokenHeaders.SentTokensAreGranted | packages/api-client/src/client.ts:292-314 | in every reachable state a call sends only the access token of an issued grant, never an empty one, and a refresh ends with an issued grant or none |
| TokenProgress.NobodyIsStuck | packages/api-client/src/client.ts:306-314 | as long as a call has not ended, some step of the client is possible |
| TokenProgress.QuiescentMeansDone | packages/api-client/src/client.ts:306-314 | when no step is left, every call has ended, every promise is settled and the slot is empty |
| TokenProgress.RunsAreFinite | packages/api-client/src/client.ts:161-193 | a run without outside events is no longer than the work at its start, under any schedule and any answers |
| TokenProgress.CallAddsBoundedWork | packages/api-client/src/client.ts:161-193 | a new call adds at most 23 steps, those of the flights it may lead included |
| TokenFanOut.FanOutBurnsOneIff | packages/api-client/src/client.ts:301-314 | between two moments without a refresh in flight, a run presents one token per ask that found the slot empty and a token stored; at most one iff no two asks did |
| TokenFanOut.RunBurns | packages/api-client/src/client.ts:301-325 | along any run, tokens presented plus tokens about to be presented grow by exactly those asks |
| TokenFanOut.LeadsIffNobodyDoes | packages/api-client/src/client.ts:306-314 | whoever asks leads a new flight iff no caller is leading one, and joins that caller's flight otherwise |
| TokenFanOut.OneFlightAtATime | packages/api-client/src/client.ts:301-308 | whoever asks while a flight is unsettled joins it, and no other refresh starts |
| TokenFanOut.FanOutMayRefreshTwice | packages/api-client/src/client.ts:301-314 | two calls sent with one stale token can present two refresh tokens |
| TokenRuns.FlightGranted | packages/api-client/src/client.ts:316-338 | the whole course of a granted refresh, from the launch to the leader's `finally`, is a run of the machine |
| TokenHeaders.RefreshedCallSendsTheGrant | packages/api-client/src/client.ts:292-299 | among any other calls, a call that joined a refresh for its header sends the access token that refresh was granted, none if it failed |
| TokenSafety.LogoutSignsOut | packages/api-client/src/client.ts:129-135 | a logout with no refresh in flight empties the store until the next login |
| TokenSafety.LoginIsUsed | packages/api-client/src/client.ts:122-127 | the next call sends the access token of a login, and the next refresh presents its refresh token |
| TokenSafety.LogoutBeforeRetry | packages/api-client/src/client.ts:178-181 | a retry reads the store again: after a logout meanwhile it carries no token |
| TokenSafety.DirectRefreshReturnsItsResult | packages/api-client/src/client.ts:306-314 | a direct refresh ends with the value its promise settled to |
| SoloCalls.SoloRequestIsARun | packages/api-client/src/client.ts:161-193 | the sequential specification of a request is a run of the protocol, with equal store, presented tokens, sent headers, answers and end |
| RequestLog.RequestIsLawful | packages/api-client/src/client.ts:161-343 | every event of a request alone is the one due: each attempt carries the token held at that moment, each refresh presents the one held, a sign-out has a refused refresh or a hopeless 401 behind it, and the store ends as the events leave it with other entries kept |
| RequestLog.HeadersOfARequest | packages/api-client/src/client.ts:218-221 | a stored unexpired token is sent as it is, after a granted refresh the new one, after a refused refresh none |
| ApiClients.RequestAlone | packages/api-client/src/client.ts:161-193 | one request alone: bounds on sends and refreshes, outcome is the last answer, hook iff a final 401 of a call that may refresh and then no token is left, public requests touch nothing |
| ApiClients.ApiClient.Request | packages/api-client/src/client.ts:161-193 | the method computes the sequential specification of a request |
| ApiClients.ApiClient.ExecuteRequest | packages/api-client/src/client.ts:197-288 | one attempt: header, send, log |
| ApiClients.ApiClient.BuildAuthHeader | packages/api-client/src/client.ts:292-299 | the header after a refresh of an expiring token |
| ApiClients.ApiClient.RefreshAccessToken | packages/api-client/src/client.ts:306-314 | joins a filled slot without effect, or refreshes once and leaves the slot empty |
| ApiClients.ApiClient.PerformRefresh | packages/api-client/src/client.ts:316-343 | stores the granted pair, or clears all tokens, and tells which |
| ApiClients.ApiClient.SetTokens | packages/api-client/src/client.ts:122-127 | both tokens are stored and nothing else changes |
| ApiClients.ApiClient.ClearTokens | packages/api-client/src/client.ts:129-135 | both tokens and the user blob are gone and nothing else changes |
| ApiClients.MemoryStorage.Get | packages/api-client/src/storage.ts:47-49 | the value stored under the key, or none |
| ApiClients.MemoryStorage.Set | packages/api-client/src/storage.ts:50-52 | one key changes |
| ApiClients.MemoryStorage.Remove | packages/api-client/src/storage.ts:53-55 | one key goes |
| Lessons.WriteThroughRoundTrip | apps/mobile/services/lessons.ts:54-105 | a lesson written through is shown again unchanged, whatever its access stamp |
| LessonTable.LruEvictionIsUnique | apps/mobile/lib/cache/lessons-cache.ts:192-205 | with distinct stamps a budget leaves only one eviction |
| LessonTable.LatestSurvivesIffItFits | apps/mobile/lib/cache/lessons-cache.ts:192-205 | the most recently used row survives an eviction iff its own size fits the budget |
| LessonTable.ReadOutlasts | apps/mobile/lib/cache/lessons-cache.ts:101-105 | a row just read outlasts every other: an eviction takes it only if it does not fit by itself |
| LessonTable.NothingGoes | apps/mobile/lib/cache/lessons-cache.ts:186-190 | a table within the budget is left alone |
| Lessons.WriteThroughLivesAWeek | apps/mobile/lib/cache/lessons-cache.ts:114-152 | the row of a lesson lives a week from now, is last used now, records the length of its own texts, and has a manifest iff there are attachments |
| Lessons.NullIsAnEmptyObject | apps/mobile/services/lessons.ts:67-91 | the two layers of defaults agree: `null` content is shown as an object without fields |
| LessonCaches.LessonCache.EvictByLruIfOversize | apps/mobile/lib/cache/lessons-cache.ts:180-208 | exactly the oldest rows the budget forces out are gone, the reported size is the true sum and the count is the number of rows gone |
| LessonCaches.LessonCache.DeleteWhileOversize | apps/mobile/lib/cache/lessons-cache.ts:199-207 | the first candidates are deleted, stopping as soon as the true sum fits; the running total is that sum throughout |
| LessonCaches.LessonCache.EvictExpiredLessons | apps/mobile/lib/cache/lessons-cache.ts:164-173 | exactly the expired rows are gone and their number is returned |
| LessonCaches.LessonCache.GetCachedLesson | apps/mobile/lib/cache/lessons-cache.ts:89-108 | the row as it was; only its stamp changes and no row comes or goes |
| LessonCaches.LessonCache.PutCachedLesson | apps/mobile/lib/cache/lessons-cache.ts:114-158 | upsert, then expiry, then an LRU eviction; row by row every kept row is the new one or as before and unexpired, an unexpired one goes only if all did not fit and none kept was used earlier; the sizes fit the budget afterwards |
| LessonCaches.PutKeepsOthers | apps/mobile/lib/cache/lessons-cache.ts:128-157 | a put that fits beside the other rows removes no unexpired one |
| LessonCaches.PutSurvivesIff | apps/mobile/lib/cache/lessons-cache.ts:114-158 | a row put with the latest stamp is there afterwards iff it has not expired and fits by itself |
| LessonCaches.LessonCache.SelectOldestFirst | apps/mobile/lib/cache/lessons-cache.ts:195-197 | every row once, by access stamp |
| LessonCaches.LessonCache.SumSizes | apps/mobile/lib/cache/lessons-cache.ts:186-189 | the sum of the recorded sizes |
| LessonCaches.LessonCache.WriteThrough | apps/mobile/services/lessons.ts:94-105 | stores the lesson's row and keeps every row in agreement with the last lesson fetched |
| LessonCaches.LessonCache.FetchLesson | apps/mobile/services/lessons.ts:113-130 | fresh online; offline the last lesson fetched, stale iff TTL eviction at that instant would delete it; otherwise the network's error |
| LessonCaches.LessonCache.PrefetchLesson | apps/mobile/services/lessons.ts:136-143 | writes a fresh lesson through and does nothing on failure |
| LessonCaches.LessonCache.RefreshRecentLessons | apps/mobile/lib/sync/run-sync.ts:77-90 | selects the most recent rows, fetches exactly those again, and touches no other row; if every stage fits and nothing has expired, all selected lessons are there afterwards, as fetched and just used, or as before if their fetch failed |
| LessonCaches.RoomyIfAllFit | apps/mobile/lib/sync/run-sync.ts:81-90 | every stage fits if the old rows and the new ones fit together |
| LessonCaches.LessonCache.RunSyncOnce | apps/mobile/lib/sync/run-sync.ts:42-75 | ok iff both notification calls succeed, errors in order, lessons refreshed either way |
| SyncSelection.SelectionIsStable | apps/mobile/lib/sync/run-sync.ts:81-90 | with distinct stamps, touching selected rows lets no other row into the next selection unless a selected one was evicted |
| CacheSync.RunTouchesOnly | apps/mobile/lib/sync/run-sync.ts:81-90 | with prefetches, reads and evictions interleaved in any way, only rows of the selected lessons are written and none to an earlier stamp |
| CacheSync.ConcurrentSyncIsStable | apps/mobile/lib/sync/run-sync.ts:77-90 | over every such run the next selection is the same set of lessons, unless a selected one was evicted |
| CacheBudget.BudgetHoldsBetweenPuts | apps/mobile/lib/cache/lessons-cache.ts:114-208 | under every interleaving of SQL statements, whenever no put is running the recorded sizes fit the budget |
| CacheBudget.SafeKept | apps/mobile/lib/cache/lessons-cache.ts:180-208 | every step keeps: the table fits, or a put is still going to bring it under the budget, stale total and list notwithstanding |
| CacheMachine.StatementEffect | apps/mobile/lib/cache/lessons-cache.ts:101-208 | what each SQL statement does to the table, row by row |
| CacheSolo.PutAlone | apps/mobile/lib/cache/lessons-cache.ts:114-158 | a put left to itself in the machine leaves the table the sequential put leaves |
| CacheSolo.EvictionAlone | apps/mobile/lib/cache/lessons-cache.ts:180-208 | an eviction left to itself in the machine is an LRU eviction |
| CacheSolo.ReadAlone | apps/mobile/lib/cache/lessons-cache.ts:89-108 | a read left to itself changes one stamp and nothing else |
| CacheAgreement.ReadersSeeTheLastFetch | apps/mobile/services/lessons.ts:113-130 | over every run in which the INSERTs of one lesson keep their order, a row with no write pending shows the last lesson fetched for its id |
| CacheAgreement.OvertakingShowsTheOlder | apps/mobile/services/lessons.ts:94-130 | a run in which two INSERTs of one lesson change places and the older lesson is shown |
| CacheAgreement.GoneUntilWritten | apps/mobile/lib/cache/lessons-cache.ts:101-105 | a row that is gone stays gone until its id is written again; late access bumps do not resurrect it |
| Tenant.ResolvesIff | apps/web/lib/tenant.ts:31-46 | a host resolves to a slug iff its lower-cased name is that valid, unreserved slug under localhost or the root domain |
| Tenant.TenantUrlRoundTrip | apps/web/lib/tenant.ts:97-110 | resolving the host of the URL built for a slug gives the slug back |
| Tenant.TenantUrlStaysAtHome | apps/web/lib/tenant.ts:97-110 | the URL keeps a development host's port over HTTP, is HTTPS without a port otherwise, and ends in the given path |
| Tenant.RootHostKeepsThePort | apps/web/lib/tenant.ts:119-127 | the root host keeps a development host's port and has no other |
| Tenant.ResolvedIsASlug | apps/web/lib/tenant.ts:31-46 | a reserved name or one with other characters is nobody's |
| Tenant.RootHostResolvesToNoSlug | apps/web/lib/tenant.ts:119-127 | the root host of any host is no teacher's, whatever its port |
| Tenant.CookieDomainMatchesHost | apps/web/lib/tenant.ts:61-72 | every host that gets a cookie domain domain-matches it (section 5.1.3 of RFC 6265) |
| Tenant.CookieDomainSharedIff | apps/web/lib/tenant.ts:50-72 | a teacher's host and its root host have one cookie domain iff the root is `localhost` or a `.localhost` suffix is written in lower case |
| Tenant.CapitalLocalhostIsApart | apps/web/lib/tenant.ts:50-72 | `aziz.LOCALHOST` is a teacher's host whose cookie domain differs from its root host's on every deployment whose root is not `localhost` |
| Middleware.AtMostTwoRedirects | apps/web/middleware.ts:232-325 | from any host, path and cookies, with any answers and next-intl redirects in between, at most two redirects of the middleware's own |
| Middleware.TwoRedirectsHappen | apps/web/middleware.ts:260-309 | on every deployment some navigation meets two |
| Middleware.RedirectsComeCloser | apps/web/middleware.ts:255-309 | each own redirect lowers the number still possible, and next-intl never raises it |
| Middleware.PageIsServedIff | apps/web/middleware.ts:232-325 | for every path, when the middleware does not redirect; a protected page without a session is let through iff its path ends in a listed extension |
| Middleware.DecisionIff | apps/web/middleware.ts:232-325 | each kind of decision is taken iff it belongs: assets pass, a closed site is left before a session is asked for |
| Middleware.HandedOnAs | apps/web/middleware.ts:311-325 | a teacher's home page is handed on as that teacher's page in the visitor's locale, every other page under its own path |
| Middleware.TeacherHomeIsServed | apps/web/middleware.ts:311-325 | the home page of every open teacher's site is the teacher's page |
| Middleware.ProtectedIff | apps/web/middleware.ts:68-79 | a path is protected iff its first segment, a locale apart, is one of the listed ones |
| Middleware.LocaleIff | apps/web/lib/tenant.ts:48-48 | a locale is found exactly as the whole first segment |
| Middleware.StrippedIs | apps/web/middleware.ts:68-71 | a path is its locale followed by its locale-free form, the home page apart |
| Middleware.ProtectedIsSkippedIff | apps/web/middleware.ts:238-244 | of the three reasons to pass a request through only the extension applies to protected paths |
| Middleware.AssetNameNeedsNoSession | apps/web/middleware.ts:102-119 | every `/dashboard/….json` is protected and passed through |
| Middleware.LoginPathIsPublic | apps/web/middleware.ts:297-300 | no login page is protected |
| Middleware.LoginKeepsTheLocale | apps/web/middleware.ts:298-299 | the login redirect keeps the locale of the protected page |
| Middleware.TeacherHomeIsPublic | apps/web/lib/tenant.ts:81-88 | the mapped home page keeps the locale and is never protected |
| SlugMemos.AnswersAreRecent | apps/web/middleware.ts:181-208 | over overlapping lookups a slug is reported unclaimed only if the API said so less than 60 seconds before |
| SlugMemos.FailuresAreNotRemembered | apps/web/middleware.ts:190-207 | every entry of the memo is an answer of the API, never the fail-open default |
| SlugMemos.AnswerIsUsedForAMinute | apps/web/middleware.ts:181-208 | an answer is used for 60 seconds and asked for again afterwards, whatever else is looked up or fails |
| SlugMemos.FailureChangesNothing | apps/web/middleware.ts:199-205 | a failed lookup is answered as claimed and changes no entry |
| SlugMemos.SlugMemo.SlugIsClaimed | apps/web/middleware.ts:184-208 | a remembered answer without effect, or the API's answer with the memo updated unless it failed |
| WeekNumbers.DayNumberFromMarch | packages/db/scripts/sync-leaderboard.ts:25-28 | the day number of every valid date is that of a count from March that says nothing of month lengths |
| WeekNumbers.MonthsFillTheYear | packages/db/scripts/sync-leaderboard.ts:25-28 | the twelve months are as long as the year |
| WeekNumbers.WeekNumberByMarchCount | packages/db/scripts/sync-leaderboard.ts:24-30 | from year 100 on, but for the three dates, the number is the standard's on that count |
| WeekNumbers.WeekNumberFromYear100 | packages/db/scripts/sync-leaderboard.ts:24-30 | from year 100 on the number is that of ISO 8601 except on 1, 2 and 3 January 100 |
| WeekNumbers.WeekNumberIsIsoIff | packages/db/scripts/sync-leaderboard.ts:24-30 | outside the years 0 to 99 it is that of ISO 8601 iff the week's Thursday is outside them too |
| WeekNumbers.SameWeekSameNumber | packages/db/scripts/sync-leaderboard.ts:24-30 | the days of a Monday-to-Sunday week share their number |
| WeekNumbers.WeekNumberRange | packages/db/scripts/sync-leaderboard.ts:24-30 | from year 100 on the computed number is in 1 to 53 iff the date is not one of the three, and 53 iff moreover the week is the last of a year with 53 Thursdays |
| WeekNumbers.NextWeekNextNumber | packages/db/scripts/sync-leaderboard.ts:24-30 | seven days later the computed number is the next one, or 1 when the Thursday is in another year |
| WeekNumbers.FourthOfJanuaryIsInWeekOne | packages/db/scripts/sync-leaderboard.ts:24-30 | 4 January is given number 1 |
| WeekNumbers.GetWeekNumber | packages/db/scripts/sync-leaderboard.ts:24-30 | the method computes the number from the date's Thursday |
| Uploads.UploadByIndex | apps/web/lib/upload.ts:31-84 | completes iff every part has a URL and an ETag; then parts, numbers and progress are those of the whole file; the progress never goes back and for a file that is not empty ends at 100 |
| Uploads.UploadByNumber | apps/web/components/dashboard/lesson-materials.tsx:198-226 | completes iff every PUT is accepted; then the parts are chosen by number, and if the numbers are a permutation the bytes counted are the whole file |
| Uploads.LoadedIsTheFile | apps/web/components/dashboard/lesson-materials.tsx:198-226 | for any permutation of the part URLs every byte of the file is counted once |
| Uploads.ByNumberRestoresTheFile | apps/web/components/dashboard/lesson-materials.tsx:198-226 | by part number the file comes back whatever order the URLs are in |
| Uploads.ByIndexRestoresEveryFileIff | apps/web/lib/upload.ts:53-78 | by index every file of a size comes back iff URL i is that of part i+1 |
| Uploads.FullParts | apps/web/lib/upload.ts:31-32 | every part but the last is exactly 5 MiB and the last is not empty |
| Uploads.ProgressIsMonotone | apps/web/lib/upload.ts:80-83 | the sequence of reported percentages stays in 0 to 100, never goes back, and ends at 100 after the last part |
| Uploads.PercentIsNearest | apps/web/lib/upload.ts:80-83 | the percentage is the whole number nearest to the share uploaded, the greater of two |
| Levels.GetLevelProgress | apps/web/lib/gamification-constants.ts:31-61 | the scan with its early exit shows the progress at the greatest threshold not above the points, for every rising table |
| Levels.Current | apps/web/lib/gamification-constants.ts:36-44 | the last level whose threshold is reached, or the first if none is |
| Levels.ProgressAddsUp | apps/web/lib/gamification-constants.ts:46-61 | earned points are below those needed and their difference is what is missing; percent is in 0 to 100, and 100 exactly on the last level, which is reported iff its threshold is reached |
| Levels.ProgressShows | apps/web/lib/gamification-constants.ts:46-61 | level, name, next threshold and the exact share of points are those of the greatest threshold not above the points |
| Levels.NothingBelowZero | apps/web/lib/gamification-constants.ts:33-49 | negative points show the first level with nothing earned |
| Levels.MorePointsMoreProgress | apps/web/lib/gamification-constants.ts:46-49 | level is monotone in the points, percent is monotone within a level |
| Base64Url.DecodersInvertEncoding | packages/api-client/src/jwt.ts:32-41 | each of the three decoders inverts unpadded base64url on every byte string |
| Base64Url.PaddingsAgree | apps/web/lib/server-auth.ts:38-41 | the three normalise-and-pad variants give `atob` the same text on every input |
| Base64Url.MiddlewareDecodesIff | apps/web/middleware.ts:125-128 | the middleware reads an encoded payload iff it has no `-` and no `_`, and throws otherwise |
| JwtExpiry.ClientIsThirtySecondsAhead | packages/api-client/src/jwt.ts:80-84 | the client gives a token up exactly 30 seconds before `server-auth.ts` |
| JwtExpiry.TestsAgreeIff | apps/web/lib/auth-server.ts:48-51 | exactly when the three server-side tests agree |
| JwtExpiry.FreshTokensPassEverywhere | packages/api-client/src/jwt.ts:80-84 | a token fresh for the client passes the other three expiry tests for 30 seconds |
| JwtExpiry.BufferIsExact | apps/web/lib/auth-server.ts:48-51 | after more than 30 seconds some such token is refused by all three |
| JwtExpiry.FreshIsValidIff | apps/web/middleware.ts:123-136 | a token fresh for the client is valid for the middleware for 30 seconds iff its payload segment has no `-` and no `_` |
| JwtExpiry.FreshButInvalid | apps/web/middleware.ts:123-136 | a concrete payload the client finds fresh and the middleware refuses at the same instant |

## Left out

- HTTP, timeouts and aborts, SQLite, Expo and browser APIs: their results are arbitrary inputs; storage and SQL are taken not to fail, and the cache database to be open.
- `createLocalStorageAdapter` and the mobile secure store: `setTokens` and `clearTokens` are atomic on the memory adapter only.
- The endpoint helper that refreshes with a token its caller supplies: it bypasses `refreshPromise`, so it is not part of the protocol.
- ApiClients.ApiClient.RefreshAccessToken: no method of the class leaves the slot filled, because the class runs one request at a time; callers that join are in `TokenProtocol`.
- LessonCaches.LessonCache.FetchLesson: completes the write-through before it returns, while the source does not await it; a read that overtakes the write is in `CacheMachine`.
- LessonCaches.LessonCache.RefreshRecentLessons: runs the prefetches one after the other, while the source runs them together; that is in `CacheSync`.
- LessonCaches.LessonCache.RunSyncOnce: refreshes through that sequential loop as well.
- URL building, headers other than `Authorization`, and certificate pinning of the API client.
- JSON text: the recorded size of a row is whatever length its texts have, so the cache bound is on recorded sizes.
- The web platform, where the cache is off: every function returns at once.
- Header and cookie values the middleware writes on requests and responses, and the query of the login redirect: `Decide` returns only where a request goes.
- next-intl's own redirects: they are taken to change at most the locale prefix of the path.
- Hosts are ASCII text, and `ROOT_DOMAIN` is taken to be a lower-case name without port that does not end in `.localhost`.
- Signatures and claims of tokens; the UTF-8 step of `server-auth.ts`, which rejects payloads that are not UTF-8; the branch for runtimes without `atob`.
- The level tables themselves and their colours: the scan is proved for every rising table that starts at 0.
- The leaderboard's Redis key: it pairs the week number with the calendar year, so it is not claimed to be unique per week.
- The years 0 to 99 as input of `getWeekNumber`: `Date.UTC` moves them to the 1900s.
- The upload's initiation and completion calls, content types and media kinds.
- Redirect rules, forms, rendering, seeds and the API server.
