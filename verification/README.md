# URL shortener resolution core, modelled in Dafny

This project models the resolution core of an Express URL shortener. A short
code maps to a target URL in a PostgreSQL `urls` table, and redirects read
through a Redis cache. Visits are appended to an `analytics` table, and
per-client counters in the same Redis throttle requests.

The database and Redis become immutable values:

- `Schema.Db` holds the `urls` rows and the `analytics` events in insertion
  order, plus a flag saying whether the server answers.
- `Cache.Keyspace` maps keys to values with an optional deadline.

Every operation is a pure function that takes an explicit `now` in
milliseconds. The things the code cannot control become inputs:

- one boolean per cache call, saying whether that call fails;
- an oracle `gen` for the random code generator;
- an opaque `validate` for request validation;
- functions `geoLookup`, `parseAgent` and `day` for address lookup,
  user-agent parsing and calendar-day truncation.

Modules follow the source files:

| module | file |
|---|---|
| `ShortCode` | `src/utils/shortCodeGenerator.js` |
| `Cache` | `src/services/cacheService.js` |
| `UrlModel` | `src/models/Url.js` |
| `AnalyticsModel` | `src/models/Analytics.js` |
| `UrlService` | `src/services/UrlService.js` |
| `Consistency` | how the `url:` cache and the store relate across `UrlService` |
| `AnalyticsService` | `src/services/analyticsService.js` |
| `RateLimiter` | the Redis store object and `customRateLimit` in `src/middleware/rateLimiter.js` |
| `ErrorHandler` | `src/middleware/errorHandler.js` |
| `UrlController` | `src/controllers/UrlController.js` |

`Wrappers`, `Errors`, `Schema` and `Sorting` hold shared definitions:

- `Option` and `Result`;
- the error values the code raises;
- the row types;
- a stable descending sort;
- the `LIMIT`/`OFFSET` window.

The central property is `Consistency.CacheTransparent`. The cache invariant
`Consistency.Inv` has two parts:

- codes are unique;
- every `url:<code>` entry is the `{originalUrl, expirationDate}` projection of
  a non-deleted record with that code.

Under `Inv`, `getOriginalUrl` answers exactly what the store's live lookup
answers, whichever cache calls fail. `Inv` is preserved by:

- create;
- resolve;
- the click increment;
- the stats read;
- delete, provided its `url:` delete succeeds.

`Consistency.StaleAfterFailedDelete` shows what happens when that delete fails.

A few behaviours of the code are easy to misread; the model follows the code:

- **Alphabet.** The comment at `src/utils/shortCodeGenerator.js:3` says
  similar-looking characters are excluded, but the alphabet on the next line
  keeps `0`, `1` and `i`; it leaves out only `I`, `L`, `O`, `l` and `o`
  (`ShortCode.AlphabetExclusions`).
- **Client address.** `recordClick` stores the address `getClientIP`
  returns, unchanged (`src/services/analyticsService.js:9-15`).
- **Custom codes.** A custom code is not checked against `isValid`
  (`UrlService.CustomCodeOutsideAlphabet`).
- **Uniqueness.** Uniqueness is checked with the live-only
  `findByShortCode` before the insert, and insert failures are not retried. A
  generated code that matches a deleted or expired record therefore fails
  creation with the unique-violation error
  (`UrlService.DeadCollisionIsNotRetried`).
- **Service errors.** The service's own errors ('Custom short code already
  exists', 'Unable to generate unique short code') are plain `Error`s with no
  status, so the error handler answers 500 for them
  (`ErrorHandler.CoreErrorReplies`).
- **Expiry at the deadline.** The handlers take the expiry test as a flag:
  `atDeadline` false is the strict test the code uses, true is the
  corrected one described under "Findings".

## Model

| member | source | states |
|---|---|---|
| `ShortCode.Generate` | src/utils/shortCodeGenerator.js:8-18 | Fails with the length error exactly when the length is at most 0 or above 20; otherwise the code is the library's draw |
| `ShortCode.ClassStarIff` | src/utils/shortCodeGenerator.js:25 | The `^[alphabet]+$` character class, without the `+`, accepts exactly the strings over the alphabet |
| `ShortCode.IsValidIff` | src/utils/shortCodeGenerator.js:20-27 | `isValid` holds iff the argument is a string over the alphabet of length 3 to 20; a non-string or empty argument is invalid |
| `ShortCode.AlphabetDistinct` | src/utils/shortCodeGenerator.js:4 | The alphabet has 57 pairwise distinct characters |
| `ShortCode.AlphabetExclusions` | src/utils/shortCodeGenerator.js:3-4 | The alphabet leaves out I, L, O, l and o but keeps 0, 1 and i |
| `ShortCode.GeneratedValidity` | src/utils/shortCodeGenerator.js:13-17 | A draw of n alphabet characters passes `isValid` for 3 ≤ n ≤ 20 and never for n = 1 or 2 |
| `Cache.Get` | src/services/cacheService.js:6-14 | A failing backend reads as null; a hit returns the stored value of a present, unexpired key, and such a key is always a hit |
| `Cache.Set` | src/services/cacheService.js:16-24 | Reports success iff the backend answers and the TTL is positive; the value is then read back up to and including the instant TTL seconds later, since Redis drops a key only once the clock is past its deadline, and is gone after that; no other key changes, and a failure changes nothing |
| `Cache.Delete` | src/services/cacheService.js:26-34 | Reports success iff the backend answers; the key is then absent and no other key changes |
| `Cache.Increment` | src/services/cacheService.js:36-47 | An absent key becomes 1 with the given expiry; if that `EXPIRE` fails the count is answered as 0 and the counter has no deadline; a live counter n becomes n + 1 keeping its deadline; a failure or a non-counter value answers 0 |
| `Cache.RateLimitKey` | src/services/cacheService.js:57-59 | The key is "ratelimit:", the action, ":" and the identifier, in that order |
| `Cache.KeyNamespaces` | src/services/cacheService.js:49-59 | A `url:` key never equals a `stats:` or rate-limit key, and each builder is injective in its code |
| `Cache.RateLimitKeyInjective` | src/services/cacheService.js:57-59 | For one action, distinct identifiers give distinct keys |
| `Cache.RateLimitKeyAmbiguous` | src/services/cacheService.js:57-59 | Across actions they need not: identifier "b:c" with action "a" collides with identifier "c" with action "a:b" |
| `Cache.SetThenGet` | src/services/cacheService.js:6-24 | After a successful set, get returns the value within the TTL, also after another key is set or deleted |
| `Cache.DeleteThenGet` | src/services/cacheService.js:26-34 | After a successful delete, get returns null |
| `Cache.FixedWindow` | src/services/cacheService.js:36-47 | From an absent key, the n-th increment inside the window answers n, and the deadline set by the first one is never extended |
| `UrlModel.Create` | src/models/Url.js:5-25 | Succeeds iff the store is up and no record has the code; appends one row with the given fields, zero clicks and both stamps at now |
| `UrlModel.FindByShortCode` | src/models/Url.js:27-42 | Returns a record with the code that is not deleted and not past its expiry, and null iff there is none |
| `UrlModel.UpdateClickCount` | src/models/Url.js:44-59 | Adds one click and stamps every record with the code, deleted or expired ones included, and nothing else; answers the first such record's new count, or 0 iff none has the code |
| `UrlModel.FindUserUrls` | src/models/Url.js:61-77 | A negative offset is reported before a negative limit; otherwise the page is the `LIMIT`/`OFFSET` window of the owner's non-deleted records arranged newest first: it starts after exactly `offset` of them and holds at most `limit` |
| `UrlModel.Delete` | src/models/Url.js:79-93 | Stamps `deletedAt` on exactly the records with the code (and owner, if one is given), already-deleted ones included, and answers whether any matched |
| `UrlModel.GetStats` | src/models/Url.js:95-117 | Null iff no non-deleted record has the code, expired or not; otherwise that record's fields and the number of events for the code |
| `AnalyticsModel.RecordClick` | src/models/Analytics.js:5-33 | Appends exactly one event carrying the given fields and `clickedAt = now`, changing nothing else |
| `AnalyticsModel.RecordClickCounts` | src/models/Analytics.js:5-28 | An appended event adds one to its own code's event count and to no other |
| `AnalyticsModel.GetClickStats` | src/models/Analytics.js:35-54 | One row per day with a recent event, newest day first; each count is that day's number of recent events, and they sum to the recent events |
| `AnalyticsModel.GetLocationStats` | src/models/Analytics.js:56-76 | At most 50 distinct places, by non-increasing count, each with its true count; a place left out has no more clicks than any place kept |
| `AnalyticsModel.GetBrowserStats` | src/models/Analytics.js:78-96 | One row per browser seen for the code, by non-increasing count, each with its true count, summing to the code's events |
| `AnalyticsModel.GetDetailedAnalytics` | src/models/Analytics.js:98-116 | A negative offset is reported before a negative limit; otherwise the code's events, newest first, with the length the `LIMIT`/`OFFSET` window allows |
| `AnalyticsModel.DetailedIsWindow` | src/models/Analytics.js:98-116 | On a reachable store the page is the window of the code's events arranged newest first that starts after exactly `offset` of them |
| `UrlService.PickCode` | src/services/UrlService.js:16-30 | Settles on the first candidate with no live record within ten draws; fails with 'Unable to generate unique short code' iff all ten had one; a store error propagates |
| `UrlService.PickFirstFree` | src/services/UrlService.js:20-30 | If candidate j is the first without a live record, the loop picks it after j + 1 draws |
| `UrlService.CreateShortUrl` | src/services/UrlService.js:9-60 | An unreachable store fails with ECONNREFUSED; a custom code succeeds iff no record carries it, a live one failing with 'Custom short code already exists' and a dead one with the unique violation; a generated code is the first candidate without a live record and succeeds iff no record carries it; every failure leaves store and cache as they were; success appends one record, caches its projection under `url:<code>` and answers `baseUrl + "/" + code` |
| `UrlService.GeneratedCodeIsValid` | src/services/UrlService.js:20-22 | If the generator draws eight alphabet characters, a generated code passes `isValid` |
| `UrlService.CustomCodeOutsideAlphabet` | src/services/UrlService.js:31-37 | A custom code outside the alphabet ("OIL") is stored as given |
| `UrlService.DeadCollisionIsNotRetried` | src/services/UrlService.js:20-44 | A generated code that only a dead record has is kept by the loop, and the insert then fails with the unique violation, leaving the state unchanged |
| `UrlService.GetOriginalUrl` | src/services/UrlService.js:62-91 | The corrected variant, with the inclusive expiry test: an unexpired hit answers its URL and changes nothing; an expired hit answers null and evicts; a miss with no live record answers null and caches nothing; a miss with one answers its URL and fills `url:<code>` with an entry expiring `ttl` seconds later, or changes nothing when the fill fails; only `url:<code>` can change |
| `UrlService.GetOriginalUrlAsWritten` | src/services/UrlService.js:83-90 | Differs from the inclusive expiry test only for a cached entry expiring exactly at now, which it still resolves |
| `UrlService.IncrementClickCount` | src/services/UrlService.js:93-103 | Never fails: the store bumps every record with the code; only `stats:<code>` is dropped, `url:<code>` reads as before; a store error changes nothing |
| `UrlService.GetUrlStats` | src/services/UrlService.js:105-118 | A cached projection is answered as is; otherwise the store's stats, which when present read back from `stats:<code>` for the next five minutes |
| `UrlService.DeleteUrl` | src/services/UrlService.js:120-134 | Answers whether any record matched; on true both `url:` and `stats:` entries are gone unless their delete failed, on false the cache is unchanged; no other key changes |
| `UrlService.BulkCreateUrls` | src/services/UrlService.js:136-153 | One result per request, each request created at its own instant; a failure records the error's message and the request's raw URL |
| `UrlService.BulkPrefix` | src/services/UrlService.js:136-153 | The answer for a prefix of the requests is the prefix of the answer: results keep input order |
| `UrlService.BulkItemIsCreate` | src/services/UrlService.js:139-150 | Item i is what creation does with request i on the state the first i requests left, failed or not |
| `Consistency.CacheTransparent` | src/services/UrlService.js:62-91 | Under the invariant, with the store up, the corrected resolution answers what the store's live lookup answers, whatever the cache calls do |
| `Consistency.LiveTestsAgree` | src/services/UrlService.js:83-90 | Under the invariant, while the code has a live record, the strict and the inclusive expiry tests resolve alike |
| `Consistency.CreatePreservesInv` | src/services/UrlService.js:39-51 | Creation keeps codes unique and every `url:` entry a projection of a non-deleted record |
| `Consistency.ResolvePreservesInv` | src/services/UrlService.js:62-91 | Resolution keeps the invariant, with either expiry test |
| `Consistency.IncrementPreservesInv` | src/services/UrlService.js:93-103 | The click increment keeps the invariant |
| `Consistency.StatsPreservesInv` | src/services/UrlService.js:105-118 | The stats read keeps the invariant |
| `Consistency.DeletePreservesInv` | src/services/UrlService.js:120-134 | Deletion keeps the invariant when its `url:` delete succeeds |
| `Consistency.CreateThenResolve` | src/services/UrlService.js:40-90 | After a successful create, resolving the code at any time before its expiry answers the original URL, whatever the cache does |
| `Consistency.DeleteThenResolve` | src/services/UrlService.js:120-134 | After a delete without an owner filter succeeds, the code resolves to null at any time |
| `Consistency.StaleAfterFailedDelete` | src/services/UrlService.js:123-131 | If the `url:` delete fails, a delete reported as successful still leaves the code resolving to its old URL |
| `Consistency.CacheOutageFallsBack` | src/services/UrlService.js:63-81 | When cache reads fail, resolution answers from the store alone, without the invariant |
| `Consistency.ExpiryBoundaryDisagreement` | src/services/UrlService.js:84 | A record expiring at 1000 with its entry cached: the store has no live record at 1000, but the strict test still resolves it, while the inclusive one does not |
| `AnalyticsService.FirstSegment` | src/services/analyticsService.js:35 | The text before the first comma: a comma-free prefix, followed by a comma when shorter |
| `AnalyticsService.GetClientIP` | src/services/analyticsService.js:31-37 | The first non-empty of the request, connection and socket addresses; failing those the first `X-Forwarded-For` entry when it is non-empty; otherwise "unknown" |
| `AnalyticsService.ClickDataOf` | src/services/analyticsService.js:9-23 | The event carries the client address unchanged; an empty referrer becomes null; country, city, browser, OS and device are each the lookup's value, or 'Unknown' when it is missing or empty |
| `AnalyticsService.RecordClick` | src/services/analyticsService.js:7-29 | Never fails: appends the shaped event when the store is up, otherwise changes nothing; only that code's event count grows |
| `AnalyticsService.GetAnalyticsSummary` | src/services/analyticsService.js:39-56 | Fails iff the store is down; each field is its own query's answer, so daily counts cover the last 30 days, browser counts sum to all the code's events, and there are at most 50 locations |
| `AnalyticsService.RecordThenSummary` | src/services/analyticsService.js:7-56 | A recorded click makes the next summary's browser counts grow by exactly one |
| `AnalyticsService.GetDetailedAnalytics` | src/services/analyticsService.js:58-73 | Echoes page and limit, errors on a negative limit or offset, and `hasMore` holds iff the page came back full |
| `AnalyticsService.PageIsWindow` | src/services/analyticsService.js:60-61 | On a reachable store, page p is the detailed query's window starting at (p - 1) * limit |
| `AnalyticsService.PagesTile` | src/services/analyticsService.js:58-61 | Pages p and p + 1 together are the double-width window at page p's offset: nothing repeats and nothing is skipped, provided events with equal `clicked_at` come back in the same order from both queries |
| `AnalyticsService.AnyPagesTile` | src/models/Analytics.js:98-116 | When no two distinct events of the code share a `clicked_at`, any page the database may return at `offset` followed by any page at `offset + limit` is a valid double-width page at `offset`, whatever order it gives ties |
| `Sorting.SortedDescUnique` | src/models/Analytics.js:105 | When equal keys mean equal elements, `ORDER BY ... DESC` has exactly one answer |
| `Sorting.TiedPagesMayRepeat` | src/models/Analytics.js:105-106 | With two rows under one key, valid pages 1 and 2 can both be the same row, so the pair repeats one row and skips the other |
| `AnalyticsService.ShortPageIsLast` | src/services/analyticsService.js:67 | When `hasMore` is false the next page is empty |
| `AnalyticsService.FullLastPageClaimsMore` | src/services/analyticsService.js:67 | When the events end exactly on a page boundary, `hasMore` is true although the next page is empty |
| `RateLimiter.StoreIncr` | src/middleware/rateLimiter.js:9-12 | A fresh key with a whole-second window gets the deadline `now + windowMs`, up to and including which it keeps counting; with a fractional window the count reads 0 and the counter never expires |
| `RateLimiter.ResetKey` | src/middleware/rateLimiter.js:16-18 | Unless the delete fails, the key reads as absent at any time afterwards; nothing else changes |
| `RateLimiter.CeilSeconds` | src/middleware/rateLimiter.js:76 | The least whole number of seconds covering the window |
| `RateLimiter.Decide` | src/middleware/rateLimiter.js:65-85 | 429 iff the count exceeds `max`, with `retryAfter` covering the window; otherwise headers with the limit, exactly `max - count` remaining (never clamped) and the reset time |
| `RateLimiter.CustomRateLimit` | src/middleware/rateLimiter.js:55-93 | A throwing key generator lets the request through without headers; otherwise only the client's `ratelimit:custom:` key changes, by one store increment, and the decision is taken on the count it answers; a cache outage lets every request through when `max` ≥ 0 |
| `RateLimiter.LimitRunCounts` | src/middleware/rateLimiter.js:58-87 | A run of requests is a run of increments on the client's key, each request decided by its count |
| `RateLimiter.WindowClosesAfterDeadline` | src/middleware/rateLimiter.js:9-12 | A counter opened at `now` answers 2 to a request at `now + windowMs` and 1 to one a millisecond later: the window includes its deadline |
| `RateLimiter.WindowAdmitsMax` | src/middleware/rateLimiter.js:61-85 | In one window from a fresh key, the n-th request is rejected iff n > `max`, and an admitted one is told `max - n` remain |
| `RateLimiter.FractionalWindowNeverResets` | src/middleware/rateLimiter.js:63 | With a window that is not whole seconds, the first request is admitted with the full allowance and leaves a counter that never expires |
| `ErrorHandler.DefaultStatus` | src/middleware/errorHandler.js:14 | The error's own non-zero status, otherwise 500 |
| `ErrorHandler.DefaultMessage` | src/middleware/errorHandler.js:15 | The error's own non-empty message, otherwise 'Internal Server Error' |
| `ErrorHandler.HandleError` | src/middleware/errorHandler.js:4-42 | Code 23505 is 409, ECONNREFUSED is 503 (codes first), ValidationError and CastError are 400; in production a 500 says only 'Internal Server Error' and no stack is sent |
| `ErrorHandler.CoreErrorReplies` | src/middleware/errorHandler.js:14-35 | Store outages are 503, duplicate codes 409, and the service's own errors 500 with their message shown outside production only |
| `ErrorHandler.ThrownIsInternal` | src/middleware/errorHandler.js:14-35 | Any plain `Error` is a 500 whose message is its own outside production and 'Internal Server Error' in production |
| `UrlController.ErrorResponse` | src/middleware/errorHandler.js:37-41 | The error handler's status, message and stack as a JSON error body |
| `UrlController.CreateShortUrl` | src/controllers/UrlController.js:7-23 | 201 with the created record on success, otherwise the error handler's reply; the service's state change is kept |
| `UrlController.RedirectToOriginal` | src/controllers/UrlController.js:25-45 | A 301 to exactly the resolved URL, plus one deferred click count for the code, iff the code resolves to a non-empty URL; otherwise 404 and nothing deferred; `atDeadline` false resolves as the code does |
| `UrlController.RedirectAtDeadline` | src/controllers/UrlController.js:25-45 | With a cached entry expiring exactly at now, the handler as written redirects and counts a click; the corrected one answers 404 |
| `UrlController.RunDeferred` | src/controllers/UrlController.js:37-38 | Each deferred task adds one click to every record with its code and stamps it; the cache only loses the tasks' `stats:` entries, all of them when the store is up and the deletes succeed; events are untouched |
| `UrlController.RedirectMatchesStore` | src/controllers/UrlController.js:28-41 | With the corrected expiry test and under the cache invariant, a redirect to u happens iff the store holds a live record for the code with non-empty URL u |
| `UrlController.RedirectKeepsInv` | src/controllers/UrlController.js:28-41 | A redirect followed by its deferred click count keeps the cache invariant, with either expiry test |
| `UrlController.GetUrlStats` | src/controllers/UrlController.js:47-66 | 404 iff the service answers null, 200 with the stats when it finds them |
| `UrlController.DeleteUrl` | src/controllers/UrlController.js:68-87 | 200 iff the store is up and some record has the code (no owner filter is passed), 404 iff the service answers false |
| `UrlController.Successes` | src/controllers/UrlController.js:94-95 | At most the number of results; all of them iff every item succeeded; none iff every item failed |
| `UrlController.BulkCreate` | src/controllers/UrlController.js:89-111 | Always 201; total is the number of requests, successful + failed = total, and failed is 0 iff every item succeeded |
| `UrlController.GetUrlInfo` | src/controllers/UrlController.js:113-141 | 404 when the code does not resolve under the chosen expiry test; when it resolves, found stats give a 200 with the stats row's fields and `baseUrl + "/" + code`, a failed stats read gives the error handler's reply, and null stats give the 500 of the `TypeError`; a 200 happens only that way |
| `UrlController.InfoAnswersWhenResolved` | src/controllers/UrlController.js:125-136 | Under the cache invariant, info on a code with a live record is always 200, with either expiry test |
| `UrlController.InfoAfterFailedDelete` | src/controllers/UrlController.js:125-136 | After a delete whose `url:` delete failed, info resolves the stale entry, reads null stats and answers 500 |

## Left out

- **Express wiring and lifecycle.** `src/app.js`, the routes, `server.js`,
  logging and `src/config/index.js` are not modelled. Its base URL and
  cache TTL defaults (`http://localhost:3000`, 3600 s) appear as
  `UrlService.DefaultConfig`. The rate-limit window and limit are parameters.
- **Database and Redis clients.** They are replaced by the `Db` and
  `Keyspace` values. A store that cannot be reached fails every query with
  `ECONNREFUSED`. The unique constraint on `short_code` is an assumption,
  because the schema is not part of this model.
- **Request validation.** This is the opaque `validate` parameter: it either
  returns the validated request or the error it throws.
  `src/utils/UrlValidator.js`, which `src/services/UrlService.js:4` requires
  as `urlValidator`, and `src/middleware/validation.js` are not part of this
  model.
- **Library limiters.** The `express-rate-limit` and `express-slow-down`
  instances are library configuration. `redisStore.decrement` does nothing.
  The `skipSuccessfulRequests` option is read but never used. The 429 message
  text is not modelled.
- **Analytics middleware and controller.** `src/middleware/analytics.js`
  (fire-and-forget recording around `res.redirect`) and
  `src/controllers/analyticsController.js` (whose `days` query value is never
  forwarded) are not modelled.
- **Concurrency.** Every operation runs to completion in turn. This leaves
  out:
  - the race between the code check and the insert;
  - the unawaited click increment (returned as a deferred task and run later,
    in order);
  - the parallel calls in `deleteUrl` and `getAnalyticsSummary`.
- **Clock.** The application clock and the database's `NOW()` are the same
  `now`.
- **External inputs.** Randomness, `geoip-lite` and `useragent` are
  parameters. Calendar-day truncation of `clicked_at` is the parameter `day`.
  Timezones and the interpolation of `days` into the SQL text are not
  modelled.
- **Cached JSON.** JSON round trips through the cache are the identity. A
  cached value of the wrong shape under `url:` or `stats:` reads as a miss.
  The code would instead return the parsed object with missing fields.
- **Count columns.** `COUNT(...)` is a `bigint`, and no type parser is
  installed for it, so node-postgres returns it as a decimal string. This
  affects `total_analytics_records` (src/models/Url.js:103) and every
  `clicks` (src/models/Analytics.js:39, 61, 82), which reach the API as
  strings. The model keeps their numeric value as a `nat`
  (`Stats.totalAnalyticsRecords` and `Group.count`).
- Cache.Increment: counters are unbounded. Redis's 64-bit overflow error is
  not modelled.
- AnalyticsService.PagesTile: the model orders events with equal
  `clicked_at` by recording order, and PostgreSQL does not promise any order
  among them, nor the same order for two `LIMIT`/`OFFSET` queries. The lemma
  therefore holds for the database only when ties keep one order;
  `AnalyticsService.AnyPagesTile` states the tiling for any order when
  `clicked_at` values are distinct, and `Sorting.TiedPagesMayRepeat` shows a
  repeat when they are not.
- AnalyticsModel.GetDetailedAnalytics: the rows are whole events, including
  the short code. The query's nine-column select leaves `short_code` out, so
  the real rows do not carry it.
- AnalyticsService.GetDetailedAnalytics: `page` and `limit` are integers. A
  non-numeric query value, which would give `NaN`, is not modelled.
- UrlController.BulkCreate: `urls` is a sequence of requests. A body without
  an array (a `TypeError`, hence 500) is not modelled.
- RateLimiter.CustomRateLimit: the key generator's answer and the request
  address are strings, and `max` is a number. An undefined `max`, which
  admits everything, is not modelled.

## Findings

| source | as written | input that shows it | evidently intended | confidence | as-written member | corrected member |
|---|---|---|---|---|---|---|
| src/services/UrlService.js:84 | A cached entry counts as expired only when `expirationDate < now`. The store (src/models/Url.js:31) keeps a record live only while `expiration_date > NOW()` | A record expiring at 1000 whose `url:` entry is cached, resolved at `now = 1000`. The store has no live record, yet the code is redirected. With the cache down it is not | The cache path treats a record as expired exactly when the store does: `expirationDate <= now` | low; not executed | `UrlService.GetOriginalUrlAsWritten`, `Consistency.ExpiryBoundaryDisagreement`, `UrlController.RedirectAtDeadline` | `UrlService.GetOriginalUrl`, `Consistency.CacheTransparent` |
