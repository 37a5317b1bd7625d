# Social-media microservices: a Dafny model of the request and event handlers

This project models the request handlers and event handlers of a small social-media back end. The back end has five services:

- a gateway that authenticates requests and forwards them;
- an identity service for accounts and refresh tokens;
- a post service with a Redis read-through cache;
- a search service that keeps a projection of posts;
- a media service that cleans up uploaded media when a post is deleted.

Each handler is a pure transition over its collaborators:

- Stores are sequences in their natural (insertion) order. `findOne`, `findById` and `deleteOne` act on the first matching document.
- The Redis cache is a map from keys to entries that carry an expiry on an abstract clock.
- The broker is an append-only log of events.
- The handler returns the new state and the HTTP reply: status, success flag or payload.

Everything a handler cannot see is a parameter:

- the clock;
- the ids the store assigns;
- the random bytes;
- JWT verification;
- the argon2 password check;
- Joi's e-mail grammar;
- the cloud delete call;
- whether a store write or a broker publish succeeds.

Modules follow the services:

| file | module | models |
|---|---|---|
| common.dfy | `Common` | `Option`, first-match search, removal, counting |
| json.dfy | `Json` | request bodies and the Joi rules the validators use |
| js_numbers.dfy | `JsNumbers` | `parseInt` without a radix, decimal rendering, `Math.ceil` of a division |
| hex.dfy | `Hex` | `Buffer.toString("hex")` and its inverse |
| post_validation.dfy | `PostValidation` | the create-post schema |
| post_store.dfy | `PostStore` | posts, newest-first order, `skip`/`limit` window |
| post_cache.dfy | `PostCache` | cache keys, `setex`, the invalidation sweep |
| events.dfy | `Events` | `post.created` / `post.deleted` payloads |
| post_controller.dfy | `PostController` | `createPost`, `getAllPosts`, `getPost`, `deletePost` |
| search_events.dfy | `SearchProjection` | the search service's two event handlers |
| media_events.dfy | `MediaCleanup` | the media service's `post.deleted` handler |
| identity_validation.dfy | `IdentityValidation` | the registration and login schemas |
| tokens.dfy | `Tokens` | `generateTokens` |
| identity_controller.dfy | `IdentityController` | register, login, refresh, logout |
| gateway_auth.dfy | `GatewayAuth` | the gateway's `validateToken` |
| media_auth.dfy | `MediaAuth` | the media service's `x-user-id` gate |
| gateway_proxy.dfy | `GatewayProxy` | mounts, path rewrite, header decorators |

Three behaviours of the code are worth stating up front:

- **Publish failures are not swallowed.** `publishEvent` calls `channel.publish` on a `null` channel when no connection could be opened, which throws (post-service/src/utils/rabbitmq.js:23-36). So `createPost` and `deletePost` answer 500 after the store write and skip the invalidation. `CreatePost` and `DeletePost` model this through their `published` flag.
- **The search projection is not idempotent.** `handlePostCreated` saves a new record without looking for an existing one. When both saves succeed, a redelivered event leaves two records for the post (`SearchProjection.CreatedReplayDuplicates`).
- **Cache failures on reads are errors.** A cache error on a read ends in the handler's catch block with 500, not in a read from the store. The model has no cache failures at all (see Left out).

## Model

| member | source | states |
|---|---|---|
| PostCache.Invalidate | post-service/src/controllers/post-controller.js:10-19 | after the sweep no key starting with `posts:` and not the key `post:<id>` remains; every other key keeps its entry; no key is added |
| PostCache.InvalidateIdempotent | post-service/src/controllers/post-controller.js:10-19 | sweeping twice for the same post gives the same cache as sweeping once |
| PostCache.InvalidateKeepsOtherPosts | post-service/src/controllers/post-controller.js:17-18 | the cached entry of any other post survives the sweep unchanged |
| PostCache.InvalidateForcesMisses | post-service/src/controllers/post-controller.js:10-19 | after the sweep every listing key and the swept post's key miss, at any time |
| PostCache.ListingKey | post-service/src/controllers/post-controller.js:83 | every listing key starts with `posts:`, so the sweep's `KEYS posts:*` finds it |
| PostCache.PostKey | post-service/src/controllers/post-controller.js:129 | a post key starts with `post:` and never with `posts:`, so the listing sweep does not touch it |
| PostCache.ListingKeyInjective | post-service/src/controllers/post-controller.js:83 | distinct (page, limit) pairs never share the key `posts:<page>:<limit>` |
| PostCache.SetEx | post-service/src/controllers/post-controller.js:109 | `setex` makes the key hit exactly until now + ttl and leaves every other key as it was |
| JsNumbers.ParseInt | post-service/src/controllers/post-controller.js:78-79 | an empty or blank string is `NaN`; a first non-blank character other than a sign or a digit is `NaN`; a negative result needs a leading minus sign |
| JsNumbers.QueryIntOr | post-service/src/controllers/post-controller.js:78-79 | `parseInt(q) \|\| d` is never 0, and a missing query gives the default |
| JsNumbers.QueryIntDefaults | post-service/src/controllers/post-controller.js:78-79 | any non-zero integer, negative ones included, passes through unclamped; "0", a non-number and a missing value give the default |
| JsNumbers.IntToStringRoundTrip | post-service/src/controllers/post-controller.js:78-83 | `parseInt` reads back the decimal text of every integer, so the key text determines the page and limit |
| JsNumbers.CeilDiv | post-service/src/controllers/post-controller.js:102 | `Math.ceil(a / b)` is the least q with a <= q * b for b > 0 (and the mirror bound for b < 0) |
| PostStore.SortNewestFirst | post-service/src/controllers/post-controller.js:92-93 | the result is ordered by `createdAt` descending and is a permutation of the store |
| PostStore.Window | post-service/src/controllers/post-controller.js:94-95 | `skip(s).limit(l)` returns at most abs(l) posts, the ones at positions s, s+1, ... in order, and is full unless the store runs out |
| PostController.SkipOf | post-service/src/controllers/post-controller.js:81 | the skip `(page-1)*limit` is negative exactly when the page is below 1 with a positive limit or above 1 with a negative limit; page 1 skips nothing |
| PostController.FreshListing | post-service/src/controllers/post-controller.js:81-104 | a store refusal exactly when the skip is negative; otherwise the page of the newest-first order at `(page-1)*limit`, with `currentpage = page`, `totalPosts` = store size, and `totalPages` = `Math.ceil(size/limit)` bounded for positive and for negative limits |
| PostController.GetAllPosts | post-service/src/controllers/post-controller.js:75-121 | a hit returns the cached snapshot and changes nothing; a miss stores the fresh listing under `posts:<page>:<limit>` for 300 s; posts and events never change |
| PostController.GetPost | post-service/src/controllers/post-controller.js:124-162 | a hit returns the cached post and changes nothing; on a miss, an id that does not cast to an ObjectId is 500 and an absent post is 404, both with nothing changed; otherwise the first post with the id is answered and cached under `post:<id>` for 3600 s |
| PostController.NewPost | post-service/src/controllers/post-controller.js:41-45 | the new post belongs to the requester, copies the content, copies a supplied `mediaIds` array, and has `mediaIds` `[]` when the body has none |
| PostController.CreatePost | post-service/src/controllers/post-controller.js:24-72 | invalid body: 400, nothing changes; 201 exactly when valid, the id is fresh and the publish succeeded, and then one post, one `post.created` event and the sweep; otherwise cache and events are untouched; a duplicate id leaves the posts as they were, while a failed publish keeps the saved post |
| PostController.DeletePost | post-service/src/controllers/post-controller.js:165-203 | an id that does not cast to an ObjectId is 500 with nothing changed; otherwise 404 with nothing changed exactly when no post has both the id and the requester as owner; otherwise the first such post is removed and the others keep their order, and on 200 a `post.deleted` event carries its `mediaIds`, the sweep runs and the reply is a message with no `success` field |
| PostController.CreateForcesListingMiss | post-service/src/controllers/post-controller.js:57-58 | after a committed create every listing read misses the cache and counts the new post |
| PostController.DeleteForcesMisses | post-service/src/controllers/post-controller.js:189-190 | after a committed delete the post reads as 404 and every listing misses and counts one post fewer |
| PostController.WritesKeepIdsUnique | post-service/src/controllers/post-controller.js:41-47 | create and delete keep post ids unique |
| PostController.DeleteByOtherUserRefused | post-service/src/controllers/post-controller.js:170-179 | a post owned by someone else cannot be deleted: 404 (500 for an id that is no ObjectId) and nothing changes |
| PostController.ListingServedFromCacheUntilExpiry | post-service/src/controllers/post-controller.js:84-89 | within the 300 s expiry a repeated listing read returns the same answer without touching store or cache |
| PostController.ListingRefreshedAfterExpiry | post-service/src/controllers/post-controller.js:92-109 | once the entry has expired the next read goes back to the store and stores a fresh entry: staleness is bounded by the expiry |
| PostController.PostServedFromCacheUntilExpiry | post-service/src/controllers/post-controller.js:131-136 | within the 3600 s expiry a repeated post read returns the same answer |
| PostValidation.ContentOnlyBody | post-service/src/utils/validation.js:7 | a body with only `content` is valid exactly when it is a string of 3..4000 UTF-16 code units |
| PostValidation.BmpContentLimit | post-service/src/utils/validation.js:7 | plain text within the Basic Multilingual Plane may have 3..4000 characters |
| PostValidation.AstralContentLimit | post-service/src/utils/validation.js:7 | content made only of emoji counts two units each, so it may have 2..2000 of them |
| PostValidation.ContentRequired | post-service/src/utils/validation.js:7 | without a string `content` no body is valid |
| PostValidation.MediaIdsAnyArray | post-service/src/utils/validation.js:8 | `mediaIds` may be any array, whatever its elements, and nothing else |
| PostValidation.UnknownKeyRejected | post-service/src/utils/validation.js:6-9 | a key outside the schema makes the body invalid |
| SearchProjection.HandlePostCreated | search-service/src/eventHandlers/search-event-handlers.js:4-19 | a successful save appends exactly one record copied from the event; a failed save changes nothing and is logged, never thrown |
| SearchProjection.CreatedReplayDuplicates | search-service/src/eventHandlers/search-event-handlers.js:7-14 | delivering the same `post.created` twice adds two records for the post, not one |
| SearchProjection.HandlePostDeleted | search-service/src/eventHandlers/search-event-handlers.js:22-33 | a successful delete removes the first record of the post in store order and keeps every other record in order; with no record of the post nothing changes; the catch block always runs after the deletion |
| SearchProjection.DeleteWithoutRecordIsNoop | search-service/src/eventHandlers/search-event-handlers.js:24 | a `post.deleted` for a post with no record leaves the projection as it was |
| MediaCleanup.GuardAlwaysHolds | media-service/src/eventHandlers/media-event-handlers.js:10 | `!mediaIds.length !== 0` holds for every length, so the "no media" branch is dead |
| MediaCleanup.HandlePostDeleted | media-service/src/eventHandlers/media-event-handlers.js:6-29 | the loop reaches the declarative outcome: records before the first failed remote delete are removed, remote before local; a missing or `null` `mediaIds`, or an id that does not cast to an ObjectId, is caught before any effect and changes nothing |
| MediaCleanup.Sweep | media-service/src/eventHandlers/media-event-handlers.js:14-22 | the loop's result is the declarative outcome over the matched records: every record before the first failing cloud delete is deleted, remote before local, and the failing one only remotely attempted |
| MediaCleanup.ExpectedTrace | media-service/src/eventHandlers/media-event-handlers.js:14-18 | when every id casts, the j-th matched record's remote delete is effect 2j and its local delete effect 2j+1; a failure ends the trace with the failed remote delete |
| MediaCleanup.RunTrace | media-service/src/eventHandlers/media-event-handlers.js:14-22 | over any matched records, the loop's effects pair each record's remote and local delete in order, with one trailing remote delete on failure |
| MediaCleanup.ExpectedKeepsUnreferenced | media-service/src/eventHandlers/media-event-handlers.js:12 | a record whose id the `$in` operand does not list is never deleted, whatever the value and whether it casts |
| MediaCleanup.ExpectedDeletesPrefix | media-service/src/eventHandlers/media-event-handlers.js:14-28 | with unique ids and every id castable, the records before the failing one are gone, and the failing record and all later ones remain |
| MediaCleanup.RunDeletesPrefix | media-service/src/eventHandlers/media-event-handlers.js:14-22 | over stored records with unique ids, the loop deletes exactly the records before the first failing cloud delete and keeps that one and all later ones |
| MediaCleanup.ExpectedNothingReferenced | media-service/src/eventHandlers/media-event-handlers.js:10-12 | an event listing no stored media (an empty list included) changes nothing, and logs an error exactly when one of its ids does not cast |
| MediaCleanup.ExpectedReplay | media-service/src/eventHandlers/media-event-handlers.js:12 | redelivering the event after a clean run deletes nothing more |
| MediaCleanup.ExpectedWrapsSingleId | media-service/src/eventHandlers/media-event-handlers.js:12 | a non-array `mediaIds` is looked up as a one-element list, as Mongoose's `$in` wraps it |
| MediaCleanup.Matching | media-service/src/eventHandlers/media-event-handlers.js:12 | `find({_id: {$in: mediaIds}})` yields exactly the stored records whose id is listed |
| MediaCleanup.MatchingAppend | media-service/src/eventHandlers/media-event-handlers.js:12 | the query keeps store order and multiplicity: matching two concatenated stores is matching each in turn |
| IdentityValidation.RegistrationFields | identity-service/src/utils/validation.js:4-13 | three string fields are a valid registration exactly when the username has 3..50 UTF-16 code units, the e-mail passes the grammar and the password has at least 6 units |
| IdentityValidation.AstralUsernameLimit | identity-service/src/utils/validation.js:7 | a username made only of emoji counts two units each, so it may have 2..25 of them |
| IdentityValidation.RegistrationNeedsAllFields | identity-service/src/utils/validation.js:7-11 | username, email and password are all required |
| IdentityValidation.LoginRefusesUsername | identity-service/src/utils/validation.js:20-25 | the login schema has no `username`, so a body carrying one is refused |
| IdentityValidation.RegistrationGivesLogin | identity-service/src/utils/validation.js:9-11 | a valid registration without its `username` is a valid login |
| IdentityValidation.LoginGivesRegistration | identity-service/src/utils/validation.js:22-24 | a valid login plus a `username` of 3..50 units is a valid registration, so both schemas apply the same e-mail and password rules |
| IdentityValidation.LongPasswordAccepted | identity-service/src/utils/validation.js:24 | the password has no upper length bound |
| Tokens.GenerateTokens | identity-service/src/utils/generateToken.js:6-31 | access claims are user id and name with 60 minutes; the refresh token is the hex text of the random bytes and decodes back to them; exactly one refresh record is appended with that 80-hex-digit token, the user's id, and an expiry 7 days ahead |
| Tokens.RefreshTokenCarriesRandom | identity-service/src/utils/generateToken.js:19 | the refresh token is the hex text of the 40 random bytes: decoding it gives them back |
| Tokens.DistinctDrawsDistinctTokens | identity-service/src/utils/generateToken.js:19 | different random draws give different refresh tokens |
| Hex.Encode | identity-service/src/utils/generateToken.js:19 | `toString("hex")` gives two lower-case hex digits per byte |
| Hex.DecodeEncode | identity-service/src/utils/generateToken.js:19 | decoding the hex text gives back the bytes |
| IdentityController.Register | identity-service/src/controllers/identity-controller.js:13-61 | invalid body or an existing user with the e-mail or the username: 400 with nothing created; 201 exactly when neither applies and the id is fresh, and then exactly one user is added and one refresh record holding the hex text of the random bytes for that user, expiring 7 days ahead, which is also the token returned |
| IdentityController.RegisterKeepsAccountsUnique | identity-service/src/controllers/identity-controller.js:30-41 | registration keeps e-mails and usernames unique |
| IdentityController.Login | identity-service/src/controllers/identity-controller.js:64-113 | 200 exactly when the body is valid and the password matches the first user with the e-mail; then the reply carries that user's 60-minute access token and the hex text of the random bytes as refresh token, which is the one record added; otherwise 400 and nothing changes |
| IdentityController.LoginWithUniqueAccounts | identity-service/src/controllers/identity-controller.js:79-96 | with unique e-mails, login succeeds exactly when some user has the e-mail and the password matches |
| IdentityController.RegisterThenLogin | identity-service/src/controllers/identity-controller.js:40-103 | a freshly registered account can log in with its e-mail and password |
| IdentityController.Refresh | identity-service/src/controllers/identity-controller.js:116-169 | missing token: 400; unknown token: 401; refused requests change nothing; success needs the first record with the token to be unexpired and its user to exist, returns the hex text of the fresh random bytes as the new token, stores it for that user and deletes the presented record |
| IdentityController.Redeem | identity-service/src/controllers/identity-controller.js:129-160 | a found record is accepted exactly when it has not expired and its user exists; otherwise 401 with nothing changed |
| IdentityController.RefreshKeepsTokenCount | identity-service/src/controllers/identity-controller.js:152-156 | rotation keeps the number of stored tokens |
| IdentityController.ExpiredTokenRefusedAndKept | identity-service/src/controllers/identity-controller.js:129-136 | a token whose expiry lies strictly before now is refused with 401 and stays stored |
| IdentityController.TokenValidAtExpiryInstant | identity-service/src/controllers/identity-controller.js:130 | at the exact instant of its expiry a token is still accepted |
| IdentityController.OrphanTokenRefused | identity-service/src/controllers/identity-controller.js:141-149 | a token whose user no longer exists is refused with 401 and nothing changes |
| IdentityController.RotatedTokenRefused | identity-service/src/controllers/identity-controller.js:129-156 | with unique token values, a live token whose owner exists is rotated with 200, and the same token presented again is refused with 401 |
| IdentityController.FindTokenAsWritten | identity-service/src/controllers/identity-controller.js:129 | a text field finds the first record holding exactly that token; the `$ne: null` operator finds the first stored record whatever its token, and nothing only in an empty store |
| IdentityController.RefreshAsWritten | identity-service/src/controllers/identity-controller.js:116-169 | a text or missing field behaves as `Refresh`; the operator field redeems the first stored record, or is 401 in an empty store |
| IdentityController.LogoutAsWritten | identity-service/src/controllers/identity-controller.js:172-202 | a text or missing field behaves as `Logout`; the operator field answers 200 and deletes the first stored record |
| IdentityController.OperatorTokenRefreshes | identity-service/src/controllers/identity-controller.js:120-160 | a caller holding no token gets 200 and a fresh pair for the owner of the first stored record when it is live and its user exists, and that record is rotated away |
| IdentityController.OperatorTokenLogsOutAnySession | identity-service/src/controllers/identity-controller.js:176-187 | the operator field deletes the first stored session, whoever owns it |
| IdentityController.OperatorTokenExample | identity-service/src/controllers/identity-controller.js:120-160 | in a store with one live session, the operator field gets 200 although only the exact stored token does so when the field is text |
| IdentityController.RefreshNeedsStoredToken | identity-service/src/controllers/identity-controller.js:120-136 | with the field read as text, 200 needs a non-empty token equal to a stored, unexpired one |
| IdentityController.Logout | identity-service/src/controllers/identity-controller.js:172-202 | missing token: 400 with nothing changed; otherwise 200, and the first record with that token, if any, is removed with the others kept in order |
| IdentityController.LoggedOutTokenRefused | identity-service/src/controllers/identity-controller.js:187 | with unique token values, a logged-out token can no longer be refreshed |
| GatewayAuth.ExtractToken | api-gateway/src/middleware/authMiddleware.js:9 | `split(" ")[1]` exists exactly when the header holds a space, and it holds no space itself |
| GatewayAuth.ValidateToken | api-gateway/src/middleware/authMiddleware.js:5-30 | no non-empty second header field: 401; a token the verifier refuses: 429; otherwise `next` with the verified payload |
| GatewayAuth.TokenIsSecondField | api-gateway/src/middleware/authMiddleware.js:9 | the token is the second space-separated field; later fields are ignored |
| GatewayAuth.SchemeNotChecked | api-gateway/src/middleware/authMiddleware.js:9 | any first word gives the same decision as `Bearer` |
| GatewayAuth.SingleWordRejected | api-gateway/src/middleware/authMiddleware.js:9-16 | a header of one word is refused with 401 |
| GatewayAuth.DoubleSpaceRejected | api-gateway/src/middleware/authMiddleware.js:9-16 | `Bearer` followed by two spaces leaves an empty token and is refused with 401 |
| GatewayAuth.JoinSplit | api-gateway/src/middleware/authMiddleware.js:9 | joining the fields of `split(" ")` gives back the header |
| GatewayAuth.SplitJoin | api-gateway/src/middleware/authMiddleware.js:9 | splitting a join of space-free fields gives back the fields |
| MediaAuth.AuthenticateRequest | media-service/src/middleware/authMiddleware.js:3-17 | 401 exactly when `x-user-id` is missing or empty; otherwise `next` with `userId` equal to the header |
| MediaAuth.AnyNonEmptyHeaderAccepted | media-service/src/middleware/authMiddleware.js:5-16 | any non-empty header value is taken verbatim as the user id |
| GatewayProxy.RewritePath | api-gateway/src/server.js:60-63 | a leading `/v1` becomes `/api` and the rest is unchanged; other URLs pass unchanged |
| GatewayProxy.RewriteIdempotent | api-gateway/src/server.js:62 | a rewritten URL is not rewritten again |
| GatewayProxy.RewriteInjectiveOnVersioned | api-gateway/src/server.js:62 | distinct `/v1` URLs are forwarded to distinct paths |
| GatewayProxy.RewriteIgnoresSegments | api-gateway/src/server.js:62 | `/v1x` becomes `/apix`, and `/v2/posts` passes unchanged |
| GatewayProxy.MountFor | api-gateway/src/server.js:76-150 | a path under a mount is served by that mount and no other |
| GatewayProxy.MountRespectsSegments | api-gateway/src/server.js:96-97 | `/v1/postsx` reaches no service |
| GatewayProxy.IdentityHeaders | api-gateway/src/server.js:80-83 | the identity decorator forces JSON `Content-Type` and sets nothing else |
| GatewayProxy.UserHeaders | api-gateway/src/server.js:101-107 | the posts and search decorators force JSON `Content-Type`, set `x-user-id` to the verified user, and touch nothing else |
| GatewayProxy.MediaHeaders | api-gateway/src/server.js:127-132 | the media decorator sets `x-user-id`, and forces JSON `Content-Type` unless the request is multipart |
| GatewayProxy.MediaHeadersAsWritten | api-gateway/src/server.js:127-132 | the decorator as written fails exactly when the request has no content type |
| GatewayProxy.MediaGetWithoutContentTypeFails | api-gateway/src/server.js:129 | a media request with no `content-type` header is not forwarded by the decorator as written |
| GatewayProxy.MediaHeadersAgree | api-gateway/src/server.js:127-132 | wherever the written decorator returns, the corrected one returns the same headers |
| GatewayProxy.Route | api-gateway/src/server.js:56-167 | unrouted exactly when no mount matches; forwarded requests go to the matching service at the rewritten URL; refusals come only from gated mounts, with 401 or 429 |
| GatewayProxy.AuthRouteUngated | api-gateway/src/server.js:76-91 | the auth mount never consults the token, forces JSON, and passes a client's `x-user-id` through unchanged |
| GatewayProxy.GatedRouteDecision | api-gateway/src/server.js:96-99 | posts, media and search refuse a missing token with 401 and a rejected one with 429; otherwise `x-user-id` is the verified user whatever the client sent |
| GatewayProxy.ForwardedMediaRequestAuthenticated | api-gateway/src/server.js:122-132 | a media request the gateway forwards carried a token the verifier accepted, and, when the verified user id is non-empty, it passes the media service's gate as that user |
| GatewayProxy.ForwardedUnderApi | api-gateway/src/server.js:60-63 | every forwarded URL lies under `/api/` with the rest of the request URL unchanged |

## Left out

- Broker, database and cache I/O. Stores are sequences, the cache is a map, the broker is a log.
- Connection management, the consume loop's acknowledgement order and concurrency are not modelled, so neither are the invalidate-versus-populate races.
- A cache that is unavailable, or a store write that fails for other reasons than those listed, is not modelled. The failures modelled are a duplicate id on save, a negative `skip`, a broker publish failing, a search store save or delete failing, and a cloud delete failing.
- The rate limiters (express-rate-limit, rate-limiter-flexible) and the 429 "too many requests" answer they send: these are library configuration.
- CORS, loggers, the error handler and the route tables: framework wiring.
- JWT signing and verification, argon2 `comparePassword`, `crypto.randomBytes`, Joi's e-mail grammar and the cloud SDK are parameters, as uninterpreted functions or flags.
- Times are integers on an abstract clock. `setDate(getDate() + 7)` is counted as 7 × 86 400 000 ms. Calendar and daylight-saving shifts are not modelled.
- `Tokens.GenerateTokens`: the stated expiry is exactly 7 days of milliseconds. The code's local-calendar `setDate` can differ from that by a daylight-saving shift.
- JSON (de)serialisation of cached values: a cache entry holds the snapshot itself, so `JSON.parse(JSON.stringify(x))` is taken to be `x`.
- `parseInt` yields unbounded integers. Floating-point rounding of very long digit strings, and `Infinity`/`NaN` arithmetic on them, are not modelled.
- `IdentityController.Refresh`, `IdentityController.Logout`: they take the body's `refreshToken` as an optional string, which is what the handlers evidently intend. The program passes the parsed JSON value unchecked into `findOne({ token })` and `deleteOne({ token })`, so an object such as `{ "$ne": null }` acts as a query operator. It matches the first stored record whatever its value: Refresh then answers 200 with a fresh pair for that record's owner, and Logout deletes another user's session (see Findings). `RefreshAsWritten` and `LogoutAsWritten` model that one operator. Other operators (`$gt`, `$regex`, …), numbers and arrays, and Mongoose's casting of them, are not modelled.
- `PostController.GetPost`, `PostController.DeletePost`: whether an id casts to an ObjectId is an oracle `isObjectId`. Once cast, ids compare as strings, whereas MongoDB compares ObjectIds, so an id spelled in upper-case hex finds the post in the program and not in the model.
- `MediaCleanup.Matching`: ids compare as strings (`Str(id)` in the operand), whereas Mongoose casts each operand element to an ObjectId and compares those, so an upper-case hex spelling, or a non-string value that casts, matches in the program only.
- `MediaCleanup.HandlePostDeleted`: which values cast to an ObjectId is an oracle `castsToId`.
- Header-name case folding is not modelled. Express's case-insensitive mount matching is not either: header names and mount paths compare exactly.
- `GatewayProxy.ForwardedUnderApi`: it holds only because mounts compare with exact case. Express mounts ignore case, while the rewrite `/^\/v1/` does not, so the program forwards `GET /V1/posts/all-posts` (with a valid token) as `/V1/posts/all-posts`, not under `/api/`.
- `GatewayProxy.Route`: it decorates media requests with the corrected `MediaHeaders`, so a media request without `content-type` is forwarded. The program instead throws in the decorator and `proxyErrorHandler` answers 500; that path is modelled only by `MediaHeadersAsWritten` (see Findings).
- `JsNumbers.QueryIntOr`: a query parameter is an optional string. Express's query parser turns a repeated parameter (`?page=2&page=3`) into an array, which `parseInt` reads as the text `"2,3"`, giving 2; arrays are not modelled.
- The identity service's `loginUser` catch block refers to an undeclared `e` (identity-service/src/controllers/identity-controller.js:107), so its 500 path never answers. Login's internal-error path is not modelled.
- The search service's query controller (MongoDB `$text` ranking), media upload, and the media and search services' own route tables.
- The `post.created` log text of the search handler, which says "deleted".
- `MediaCleanup.HandlePostDeleted`: the cloud delete is a pure oracle on the public id, so a retry of the same asset behaves the same way.
- `PostStore.SortNewestFirst`: the store leaves the order of posts with equal timestamps open. The model fixes it to insertion order, and the sort's contracts do not depend on that choice.

## Findings

| source | as written | input that shows it | evidently intended | confidence | as-written member | corrected member |
|---|---|---|---|---|---|---|
| api-gateway/src/server.js:129 | `srcReq.headers["content-type"].startsWith("multipart/form-data")` is evaluated for every media request. It throws a TypeError when the request has no content type, so the proxy hands the error to `proxyErrorHandler` (api-gateway/src/server.js:64-69), which answers 500, instead of reaching the media service. | `GET /v1/media/get` with a valid `Authorization` header and no `Content-Type` | a request without a content type is not a multipart upload, so it is forwarded as JSON | not executed | GatewayProxy.MediaHeadersAsWritten (counterexample GatewayProxy.MediaGetWithoutContentTypeFails) | GatewayProxy.MediaHeaders (used by GatewayProxy.Route; agreement proved in GatewayProxy.MediaHeadersAgree) |
| identity-service/src/controllers/identity-controller.js:129 | `refreshTokenUser` and `logoutUser` (line 187) put `req.body.refreshToken` into the query unchecked. `express.json()` parses objects (identity-service/src/server.js:40), so `{ "$ne": null }` becomes a MongoDB operator that matches every stored token. | `POST /api/auth/refresh-token` with body `{"refreshToken": {"$ne": null}}` while some live session exists | only a client that presents the exact text of a stored token can refresh or revoke it | not executed | IdentityController.RefreshAsWritten and IdentityController.LogoutAsWritten (counterexamples IdentityController.OperatorTokenRefreshes, IdentityController.OperatorTokenLogsOutAnySession, IdentityController.OperatorTokenExample) | IdentityController.Refresh and IdentityController.Logout over a text field (proved in IdentityController.RefreshNeedsStoredToken) |
