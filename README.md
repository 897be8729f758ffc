# lovelydream authentication and member core, in Dafny

This project models the authentication and member core of the lovelydream
backend, a Spring/Kotlin service, and proves properties of that model.

- **Sessions.** A member logs in with e-mail and password. They receive a
  15-minute access token and a 7-day refresh token, both JWTs. The jti
  (token id) of the refresh token is recorded in Redis as the session of
  one (member, device) pair.
- **Reissue.** Reissue exchanges a refresh token whose jti is the
  recorded one. It rotates the session and marks the old jti used.
- **Logout.** Logout blacklists the access token's jti for the token's
  remaining whole seconds, deletes the session and marks the refresh jti used.
- **The filter.** An authentication filter runs on every request that is
  not whitelisted. It checks the bearer token's typ claim, its validity,
  its jti and the blacklist before it installs the principal.
- **Sign-up.** Sign-up first validates the request: the member fields by
  their patterns and the consent flags by their required terms. It then
  saves the member with an encoded password and one consent row per
  accepted kind of terms. Each consent row points at the latest published
  version of its kind.
- **Profiles and e-mail codes.** Profile creation saves a profile and its
  five lists of preferences. E-mail verification sends a six-digit code
  that is stored for five minutes and can be used once.
- **Errors and logging.** A global exception handler maps every failure to
  an HTTP status and an error body. A logging utility masks e-mails, names,
  phone numbers, jtis and device ids.

## How the model is built

- **Redis.** The shared Redis server is the class `Redis.RedisKv`:
  - a map from keys to entries, each entry a value and an expiry instant;
  - a clock `now`, and an `available` flag that stands for the connection;
  - a ghost `history` of every value ever written, so that fresh random
    jtis can be stated as fresh.
- **The two token-store implementations.** Both are classes over that
  store:
  - `RedisTokenStore` is the one the session manager is wired to;
  - `TokenStore` is the guarded, logging variant.
- **The session manager.** It is specified by pure functions in
  `SessionSpec`. Each maps the store as it was to a result and the store
  afterwards. The class `Session.AuthService` performs the same steps
  imperatively, against the store object. Each of its methods is proved
  equal to its specification function.
- **The member repositories.** They are the class `MemberTables.MemberDb`,
  with one sequence per table and the two identity counters. `MemberSpec`
  specifies sign-up and profile creation as functions on the tables.
  `Members.MemberService` and `MemberAuth.MemberAuthService` are proved
  against those functions.
- **Validation.** Request validation is modelled as functions that list
  the field errors bean validation reports.
- **Time.** Instants are milliseconds. A JWT stores its dates in whole
  seconds (`Jwt.NumericDate`), as jjwt writes them. A Redis key lives up
  to and including the millisecond of its expiry.
- **The filter and the controller.** The filter and the controller's
  header helpers are pure functions of the request and the store.

Where the repository's tests and its code disagree, the model follows the
code:
- The code throws `AuthException(AUTH_EMAIL_ALREADY_EXISTS)` and
  `AuthException(TERMS_NOT_FOUND)` from sign-up; the tests expect
  `MemberException`.
- The tests also expect an `existsById` check and an `agreeAge` flag that
  the code does not have.

Behaviours of the code that the proofs make explicit:
- Reissuing in the last second of a refresh token's life deletes the
  session, then fails. The remaining whole seconds are 0, and Redis
  refuses a zero expiry (`LastSecondReissueLosesSession`).
- Logout blacklists an access token for its remaining whole seconds, so
  the entry can lapse up to a second before the token expires. Logout in
  the token's last second blacklists nothing. In both cases the filter
  admits the token again, or still, until it expires
  (`LoggedOutTokenReadmitted` shows the first case).
- A wrong password is thrown as a `MemberException`, so the client gets
  400. The auth handler would have answered 401
  (`WrongPasswordAnswersBadRequest`).
- The password message asks for upper and lower case letters. The
  pattern only asks for a letter (`PasswordCaseNotRequired`).
- The controller's bearer helper accepts a lower-case "bearer " prefix.
  It then removes only the exact "Bearer ", so the prefix stays in the
  token (`LowercasePrefixIsKept`).
- The device-id helper uses a present X-Forwarded-For header even when
  its first entry is blank, and then hashes an empty address
  (`BlankForwardedEntryKept`).

## Model

| member | source | states |
|---|---|---|
| Errors.ResponseCode.Code | src/main/kotlin/kr/co/lovelydream/global/enums/ResponseCode.kt:3-23 | every response code has a non-empty wire code that names that code and no other |
| Errors.CodesDistinct | src/main/kotlin/kr/co/lovelydream/global/enums/ResponseCode.kt:3-23 | two response codes with the same wire code are the same code |
| Redis.LookupAt | src/main/kotlin/kr/co/lovelydream/auth/service/impl/RedisTokenServiceImpl.kt:23-24 | a key reads as its stored value exactly while the clock has not passed the key's expiry, that last millisecond included, and as absent otherwise |
| Redis.RedisKv.constructor | src/main/kotlin/kr/co/lovelydream/auth/service/impl/RedisTokenServiceImpl.kt:12-14 | a connected, empty store |
| Redis.RedisKv.Get | src/main/kotlin/kr/co/lovelydream/auth/service/impl/RedisTokenServiceImpl.kt:23-24 | GET returns the live value or absent; a lost connection is an error, never "absent" |
| Redis.RedisKv.HasKey | src/main/kotlin/kr/co/lovelydream/auth/service/impl/RedisTokenServiceImpl.kt:35-36 | EXISTS answers whether a live value is stored; a lost connection is an error, never "no" |
| Redis.RedisKv.Set | src/main/kotlin/kr/co/lovelydream/auth/service/impl/RedisTokenServiceImpl.kt:38-41 | SET with an expiry is an error when the connection is lost or the expiry is not positive, and then nothing changes; otherwise exactly that key holds the value, expiring at now plus the expiry |
| Redis.RedisKv.Delete | src/main/kotlin/kr/co/lovelydream/auth/service/impl/RedisTokenServiceImpl.kt:26-27 | DEL removes exactly that key and reports whether a live value was there; a lost connection is an error and changes nothing |
| Redis.RedisKv.Advance | src/main/kotlin/kr/co/lovelydream/auth/service/impl/RedisTokenServiceImpl.kt:18-21 | time passes and nothing stored changes, so keys expire by the clock alone |
| Redis.RedisKv.SetAvailable | src/main/kotlin/kr/co/lovelydream/auth/service/impl/TokenStoreServiceImpl.kt:47-53 | the connection goes down or comes back; nothing stored changes |
| TokenKeys.IntToStringIsIdText | src/main/kotlin/kr/co/lovelydream/auth/service/impl/RedisTokenServiceImpl.kt:15-16 | a Long member id prints as digits with at most a leading minus, so it holds no colon |
| TokenKeys.NamespacesDisjoint | src/main/kotlin/kr/co/lovelydream/auth/service/impl/RedisTokenServiceImpl.kt:15-44 | a session key, a used-marker key and a blacklist key are never the same key |
| TokenKeys.RefreshKeyInjective | src/main/kotlin/kr/co/lovelydream/auth/service/impl/RedisTokenServiceImpl.kt:15-16 | distinct (member, device) pairs get distinct session keys |
| TokenKeys.JtiKeysInjective | src/main/kotlin/kr/co/lovelydream/auth/service/impl/RedisTokenServiceImpl.kt:29-44 | distinct jtis get distinct used-marker keys and distinct blacklist keys |
| Jwt.ParseClaims | src/main/kotlin/kr/co/lovelydream/auth/jwt/JwtTokenProvider.kt:82-84 | parsing succeeds exactly when the signature verifies and the expiry is not past, and then yields the token's claims |
| Jwt.IsValid | src/main/kotlin/kr/co/lovelydream/auth/jwt/JwtTokenProvider.kt:62-67 | a token is valid exactly when its signature verifies and its expiry is not before now |
| Jwt.TruncDiv | src/main/kotlin/kr/co/lovelydream/auth/jwt/JwtTokenProvider.kt:75 | Long division rounds toward zero: Euclidean for a non-negative dividend, never positive for a negative one |
| Jwt.NumericDate | src/main/kotlin/kr/co/lovelydream/auth/jwt/JwtTokenProvider.kt:22-33 | a JWT date is a whole number of seconds: for an instant not before 1970 it is the instant cut down to its second, less than a second earlier; before 1970 it is cut up, less than a second later |
| Jwt.GetRemainingTtlSeconds | src/main/kotlin/kr/co/lovelydream/auth/jwt/JwtTokenProvider.kt:72-77 | succeeds exactly on valid tokens; the whole seconds left, or 0 in the last second; never negative |
| Jwt.GetTyp | src/main/kotlin/kr/co/lovelydream/auth/jwt/JwtTokenProvider.kt:79-80 | succeeds exactly on a valid token whose typ claim is a string, and returns that string; otherwise it throws |
| Jwt.GetTier | src/main/kotlin/kr/co/lovelydream/auth/jwt/JwtTokenProvider.kt:96-99 | succeeds exactly on valid tokens; returns the tier claim when it is a string, "" otherwise |
| Jwt.GetType | src/main/kotlin/kr/co/lovelydream/auth/jwt/JwtTokenProvider.kt:101-104 | succeeds exactly on valid tokens; returns the typ claim when it is a string, "" otherwise |
| Jwt.StringElements | src/main/kotlin/kr/co/lovelydream/auth/jwt/JwtTokenProvider.kt:90 | keeping the string elements of a list never yields more than the list held |
| Jwt.StringElementsConcat | src/main/kotlin/kr/co/lovelydream/auth/jwt/JwtTokenProvider.kt:90 | the string elements of two lists in a row are those of the first, then those of the second, so the list order is kept |
| Jwt.StringElementsMembers | src/main/kotlin/kr/co/lovelydream/auth/jwt/JwtTokenProvider.kt:90 | a role is read from a list claim exactly when the list holds it as a string |
| Jwt.TrimmedNonEmpty | src/main/kotlin/kr/co/lovelydream/auth/jwt/JwtTokenProvider.kt:91 | trimming and dropping empty pieces never yields more pieces than there were |
| Jwt.TrimmedNonEmptyConcat | src/main/kotlin/kr/co/lovelydream/auth/jwt/JwtTokenProvider.kt:91 | trimming and dropping empty pieces keeps the pieces' order: two runs of pieces give their kept strings one after the other |
| Jwt.TrimmedNonEmptyMembers | src/main/kotlin/kr/co/lovelydream/auth/jwt/JwtTokenProvider.kt:91 | a string is kept exactly when it is non-empty and is the trim of one of the pieces |
| Jwt.GetRoles | src/main/kotlin/kr/co/lovelydream/auth/jwt/JwtTokenProvider.kt:86-94 | succeeds exactly on valid tokens |
| Jwt.RolesFromTextWellFormed | src/main/kotlin/kr/co/lovelydream/auth/jwt/JwtTokenProvider.kt:91 | a comma-separated role claim gives at most one role more than it has commas; each role is non-empty, free of commas and of surrounding whitespace |
| Jwt.RolesFromTextKeeps | src/main/kotlin/kr/co/lovelydream/auth/jwt/JwtTokenProvider.kt:91 | every comma-separated piece that trims to something is one of the roles, trimmed |
| Jwt.RolesFromTextFrom | src/main/kotlin/kr/co/lovelydream/auth/jwt/JwtTokenProvider.kt:91 | every role is the non-empty trim of one of the comma-separated pieces |
| Jwt.RolesFromTextConcat | src/main/kotlin/kr/co/lovelydream/auth/jwt/JwtTokenProvider.kt:91 | the roles of two role strings joined by a comma are those of the first, then those of the second |
| Jwt.TrimmedPiecesWellFormed | src/main/kotlin/kr/co/lovelydream/auth/jwt/JwtTokenProvider.kt:91 | pieces without commas stay well-formed roles after trimming and dropping empties |
| Jwt.TrimKeepsCharacters | src/main/kotlin/kr/co/lovelydream/auth/jwt/JwtTokenProvider.kt:91 | trimming only removes characters, and a non-empty trimmed string neither starts nor ends with whitespace |
| Jwt.MintedTokenReadsBack | src/main/kotlin/kr/co/lovelydream/auth/jwt/JwtTokenProvider.kt:20-54 | up to and including its expiry, a minted token is valid, carries the issue instant and the expiry (issue plus lifetime) cut to whole seconds, and reads back its subject, jti, typ, that expiry, tier "FREE" and roles ["ROLE_USER"] |
| Jwt.AccessTokenShape | src/main/kotlin/kr/co/lovelydream/auth/jwt/JwtTokenProvider.kt:20-36 | an access token is typed "access", carries the member and the jti, and expires at issue plus 900000 ms cut to whole seconds: less than a second early, never late |
| Jwt.RefreshTokenShape | src/main/kotlin/kr/co/lovelydream/auth/jwt/JwtTokenProvider.kt:38-54 | a refresh token is typed "refresh", carries the member and the jti, and expires at issue plus 604800000 ms cut to whole seconds: less than a second early, never late |
| Jwt.ExpiredTokenUnreadable | src/main/kotlin/kr/co/lovelydream/auth/jwt/JwtTokenProvider.kt:56-80 | past its expiry a token is invalid, and getTyp, getJti, getMemberId and getRemainingTtlSeconds all throw |
| RedisTokenStore.SessionKey | src/main/kotlin/kr/co/lovelydream/auth/service/impl/RedisTokenServiceImpl.kt:15-16 | a session key is `refresh:{memberId}:{deviceId}`, and it is never a used-marker or blacklist key |
| RedisTokenStore.RedisTokenStore.constructor | src/main/kotlin/kr/co/lovelydream/auth/service/impl/RedisTokenServiceImpl.kt:12-14 | the store works on the given Redis connection |
| RedisTokenStore.RedisTokenStore.SaveRefreshToken | src/main/kotlin/kr/co/lovelydream/auth/service/impl/RedisTokenServiceImpl.kt:18-21 | with no guard: an error on a lost connection or an expiry already reached; otherwise the session holds the jti until the token's expiry and nothing else changes |
| RedisTokenStore.RedisTokenStore.GetRefreshToken | src/main/kotlin/kr/co/lovelydream/auth/service/impl/RedisTokenServiceImpl.kt:23-24 | the live jti of the pair's session, or absent; a lost connection is an error |
| RedisTokenStore.RedisTokenStore.DeleteRefreshToken | src/main/kotlin/kr/co/lovelydream/auth/service/impl/RedisTokenServiceImpl.kt:26-27 | removes exactly the pair's session and reports whether one was live |
| RedisTokenStore.RedisTokenStore.BlacklistAccessJti | src/main/kotlin/kr/co/lovelydream/auth/service/impl/RedisTokenServiceImpl.kt:29-33 | a lifetime of zero seconds or less writes nothing; otherwise `access:blacklist:{jti}` holds "1" for that many seconds |
| RedisTokenStore.RedisTokenStore.IsAccessBlacklisted | src/main/kotlin/kr/co/lovelydream/auth/service/impl/RedisTokenServiceImpl.kt:35-36 | true exactly when a live blacklist entry exists for the jti; a lost connection is an error |
| RedisTokenStore.RedisTokenStore.MarkRefreshUsed | src/main/kotlin/kr/co/lovelydream/auth/service/impl/RedisTokenServiceImpl.kt:38-41 | with no guard: a lifetime of zero seconds or less is refused by Redis; otherwise `refresh:used:{jti}` holds "1" for that many seconds |
| RedisTokenStore.RedisTokenStore.IsRefreshUsed | src/main/kotlin/kr/co/lovelydream/auth/service/impl/RedisTokenServiceImpl.kt:43-44 | true exactly when a live used marker exists for the jti |
| RedisTokenStore.OtherSessionsUntouched | src/main/kotlin/kr/co/lovelydream/auth/service/impl/RedisTokenServiceImpl.kt:15-21 | writing one pair's session leaves every other pair's session reading as before |
| TokenStore.TokenStore.constructor | src/main/kotlin/kr/co/lovelydream/auth/service/impl/TokenStoreServiceImpl.kt:18-20 | the store works on the given Redis connection |
| TokenStore.TokenStore.SaveRefreshToken | src/main/kotlin/kr/co/lovelydream/auth/service/impl/TokenStoreServiceImpl.kt:28-54 | an expiry already reached is skipped without error and without a write; otherwise the session holds the jti until the expiry, a lost connection is rethrown, and other sessions are untouched |
| TokenStore.TokenStore.GetRefreshToken | src/main/kotlin/kr/co/lovelydream/auth/service/impl/TokenStoreServiceImpl.kt:61-74 | the live jti of the pair, or absent; a lost connection is an error |
| TokenStore.TokenStore.DeleteRefreshToken | src/main/kotlin/kr/co/lovelydream/auth/service/impl/TokenStoreServiceImpl.kt:80-92 | succeeds exactly when connected, and then the pair has no session |
| TokenStore.TokenStore.BlacklistAccessJti | src/main/kotlin/kr/co/lovelydream/auth/service/impl/TokenStoreServiceImpl.kt:99-115 | a non-positive lifetime writes nothing; otherwise the jti is blacklisted for that many seconds; sessions and used markers are untouched |
| TokenStore.TokenStore.IsAccessBlacklisted | src/main/kotlin/kr/co/lovelydream/auth/service/impl/TokenStoreServiceImpl.kt:121-134 | true exactly when a live blacklist entry exists; a lost connection is an error, never "not blacklisted" |
| TokenStore.TokenStore.MarkRefreshUsed | src/main/kotlin/kr/co/lovelydream/auth/service/impl/TokenStoreServiceImpl.kt:141-157 | a non-positive lifetime writes nothing; otherwise the jti is marked used for that many seconds; sessions and blacklist entries are untouched |
| TokenStore.TokenStore.IsRefreshUsed | src/main/kotlin/kr/co/lovelydream/auth/service/impl/TokenStoreServiceImpl.kt:163-176 | true exactly when a live used marker exists; a lost connection is an error, never "not used" |
| TokenStore.MarkerLifetime | src/main/kotlin/kr/co/lovelydream/auth/service/impl/TokenStoreServiceImpl.kt:141-157 | a marker written with a positive lifetime reads as present exactly up to and including the instant its lifetime ends, and as absent after it |
| TokenStore.SaveThenGet | src/main/kotlin/kr/co/lovelydream/auth/service/impl/TokenStoreServiceImpl.kt:28-74 | after two saves for a pair, reading it back gives the second jti |
| TokenStore.DeleteThenGet | src/main/kotlin/kr/co/lovelydream/auth/service/impl/TokenStoreServiceImpl.kt:61-92 | after a delete, reading the pair gives absent |
| ExceptionHandler.AuthStatus | src/main/kotlin/kr/co/lovelydream/global/exception/GlobalExceptionHandler.kt:26-33 | 401 exactly for UNAUTHORIZED, AUTH_INVALID_CREDENTIAL, AUTH_INVALID_REFRESH_TOKEN and AUTH_REUSED_REFRESH_TOKEN; 403 exactly for FORBIDDEN; 400 otherwise |
| ExceptionHandler.MemberStatus | src/main/kotlin/kr/co/lovelydream/global/exception/GlobalExceptionHandler.kt:42-45 | 404 exactly for MEMBER_NOT_FOUND, 400 otherwise |
| ExceptionHandler.FieldTexts | src/main/kotlin/kr/co/lovelydream/global/exception/GlobalExceptionHandler.kt:55 | one `field:message` text per rejected field, in order |
| ExceptionHandler.Handle | src/main/kotlin/kr/co/lovelydream/global/exception/GlobalExceptionHandler.kt:24-83 | every response carries the path and a known code. Auth and member failures carry their own code and message. 401, 403 and 404 arise exactly as the two tables say. Validation and bad requests are 400. Store and unexpected failures are 500 FAIL with the fixed message |
| ExceptionHandler.ValidationMessageListsFields | src/main/kotlin/kr/co/lovelydream/global/exception/GlobalExceptionHandler.kt:52-63 | when no field text holds a comma, the message has exactly one separator fewer than there are fields |
| LoggingUtil.MaskEmailKeepsDomain | src/main/kotlin/kr/co/lovelydream/global/util/LoggingUtil.kt:8-17 | an address with one '@' shows at most four characters of its local part, then "*****@", then its domain unchanged |
| LoggingUtil.MaskEmailLeavesNonAddresses | src/main/kotlin/kr/co/lovelydream/global/util/LoggingUtil.kt:8-10 | text without exactly one '@' is returned as is |
| LoggingUtil.MaskName | src/main/kotlin/kr/co/lovelydream/global/util/LoggingUtil.kt:23-25 | same length, first character kept, every later character '*' |
| LoggingUtil.MaskNameIdempotent | src/main/kotlin/kr/co/lovelydream/global/util/LoggingUtil.kt:23-25 | masking a masked name changes nothing |
| LoggingUtil.MaskPhone | src/main/kotlin/kr/co/lovelydream/global/util/LoggingUtil.kt:31-33 | same length; each character is kept, or is a digit replaced by '*' |
| LoggingUtil.MaskPhoneNumber | src/main/kotlin/kr/co/lovelydream/global/util/LoggingUtil.kt:31-33 | a bare ddd-dddd-dddd number keeps its first and last groups and stars the middle four digits |
| LoggingUtil.MaskPhoneWithoutDigits | src/main/kotlin/kr/co/lovelydream/global/util/LoggingUtil.kt:31-33 | text without digits is returned as is |
| LoggingUtil.MaskJti | src/main/kotlin/kr/co/lovelydream/global/util/LoggingUtil.kt:39-41 | between 3 and 11 characters; starts with the jti's first two characters; hides at least one character of a jti longer than two |
| LoggingUtil.MaskJtiLong | src/main/kotlin/kr/co/lovelydream/global/util/LoggingUtil.kt:39-41 | a jti longer than eight shows exactly its first four and last four characters |
| LoggingUtil.MaskDevice | src/main/kotlin/kr/co/lovelydream/global/util/LoggingUtil.kt:47-49 | between 3 and 7 characters; a prefix of the device id followed by "***"; hides at least one character of an id longer than two |
| LoggingUtil.MaskDeviceShown | src/main/kotlin/kr/co/lovelydream/global/util/LoggingUtil.kt:47-49 | an id longer than six shows exactly its first four characters, a shorter one its first two (or all of it when it has fewer), each followed by "***" |
| AuthFilter.AntMatchAbsolute | src/main/kotlin/kr/co/lovelydream/auth/filter/JwtAuthenticationFilter.kt:37-40 | matching an absolute pattern is the same as matching its segments: equal segments for a literal, a segment prefix for `/**` |
| AuthFilter.ShouldNotFilterBySegments | src/main/kotlin/kr/co/lovelydream/auth/filter/JwtAuthenticationFilter.kt:25-40 | a path is skipped exactly when it matches the segments of some whitelist entry |
| AuthFilter.EntriesSkipped | src/main/kotlin/kr/co/lovelydream/auth/filter/JwtAuthenticationFilter.kt:25-40 | every whitelist entry, the two trees included, is itself skipped |
| AuthFilter.SwaggerTreeSkipped | src/main/kotlin/kr/co/lovelydream/auth/filter/JwtAuthenticationFilter.kt:32-40 | every path under /swagger-ui, the root included, is skipped |
| AuthFilter.ApiDocsTreeSkipped | src/main/kotlin/kr/co/lovelydream/auth/filter/JwtAuthenticationFilter.kt:33-40 | every path under /v3/api-docs, the root included, is skipped |
| AuthFilter.LogoutIsFiltered | src/main/kotlin/kr/co/lovelydream/auth/filter/JwtAuthenticationFilter.kt:25-40 | /api/auth/logout is not whitelisted |
| AuthFilter.ResolveAccessToken | src/main/kotlin/kr/co/lovelydream/auth/filter/JwtAuthenticationFilter.kt:98-106 | a token is read exactly when the header starts with "Bearer " in any letter case; it is the rest of the header, trimmed |
| AuthFilter.CheckIdentity | src/main/kotlin/kr/co/lovelydream/auth/filter/JwtAuthenticationFilter.kt:73-95 | for a valid access token, in the filter's order: a missing or blank jti is ACCESS_TOKEN_JTI_MISSING; then a lost connection throws; then a blacklisted jti is ACCESS_TOKEN_BLACKLISTED; then a missing or blank subject is ACCESS_TOKEN_SUBJECT_MISSING; a token passing all of these is admitted with its subject as principal, and only such a token is |
| AuthFilter.DoFilterAsWritten | src/main/kotlin/kr/co/lovelydream/auth/filter/JwtAuthenticationFilter.kt:43-96 | a request that is not examined passes; an examined request with an invalid token ends in an exception, not a 401; a token passing every check is admitted with its subject, and only such a token is; for a readable "access" typ, the jti, blacklist and subject rejections and the outage come in the filter's order |
| AuthFilter.InvalidOrExpiredUnreachable | src/main/kotlin/kr/co/lovelydream/auth/filter/JwtAuthenticationFilter.kt:62-71 | reading each token at one instant, and for tokens carrying an expiry, the filter as written never answers INVALID_OR_EXPIRED_ACCESS_TOKEN; only a token that expires between the getTyp and isValid reads would get it |
| AuthFilter.MemberPageRequestExamined | src/main/kotlin/kr/co/lovelydream/auth/filter/JwtAuthenticationFilter.kt:37-60 | a GET of a member page with a plain bearer token is examined, and that token is the one read |
| AuthFilter.ExpiredAccessTokenCrashes | src/main/kotlin/kr/co/lovelydream/auth/filter/JwtAuthenticationFilter.kt:62-65 | an access token presented 1 ms after its expiry (its 15 minutes, cut to whole seconds) makes the filter as written throw from getTyp |
| AuthFilter.DoFilter | src/main/kotlin/kr/co/lovelydream/auth/filter/JwtAuthenticationFilter.kt:43-96 | as intended: an invalid token is rejected as INVALID_OR_EXPIRED; a valid non-access token is rejected as TYP_MISMATCH; then the jti, blacklist and subject rejections come in the filter's order; a token passing every check is admitted with its subject, and only such a token is; only a lost Redis connection escapes as an exception |
| AuthFilter.CorrectionOnlyAffectsUnreadableTokens | src/main/kotlin/kr/co/lovelydream/auth/filter/JwtAuthenticationFilter.kt:62-71 | whenever getTyp succeeds, the corrected filter and the filter as written decide alike |
| AuthFilter.BlacklistedTokenRejected | src/main/kotlin/kr/co/lovelydream/auth/filter/JwtAuthenticationFilter.kt:73-82 | a valid access token with a live blacklisted jti is refused as ACCESS_TOKEN_BLACKLISTED |
| AuthFilter.WriteUnauthorized | src/main/kotlin/kr/co/lovelydream/auth/filter/JwtAuthenticationFilter.kt:108-115 | a committed response is left alone; otherwise it becomes a committed 401 with the JSON body naming the code |
| AuthFilter.WriteUnauthorizedOnce | src/main/kotlin/kr/co/lovelydream/auth/filter/JwtAuthenticationFilter.kt:108-109 | once one rejection is written, a second one changes nothing |
| AuthController.ExtractBearerToken | src/main/kotlin/kr/co/lovelydream/auth/controller/AuthController.kt:233-236 | a token is read exactly when the header starts with "Bearer " in any case; the exact prefix is removed, any other spelling is kept; the result is trimmed |
| AuthController.ExactPrefixAgreesWithFilter | src/main/kotlin/kr/co/lovelydream/auth/controller/AuthController.kt:233-236 | with the exact prefix "Bearer ", controller and filter read the same trimmed token |
| AuthController.LowercasePrefixIsKept | src/main/kotlin/kr/co/lovelydream/auth/controller/AuthController.kt:233-236 | with "bearer " the controller keeps the prefix in the token, while the filter strips it |
| AuthController.DeviceHeader | src/main/kotlin/kr/co/lovelydream/auth/controller/AuthController.kt:240 | the X-Device-Id header is used only when it is non-blank, and then trimmed |
| AuthController.Base64UrlNoPad | src/main/kotlin/kr/co/lovelydream/auth/controller/AuthController.kt:248-250 | unpadded URL-safe base64 gives ceil(4n/3) characters, all from the URL-safe alphabet |
| AuthController.ResolveDeviceId | src/main/kotlin/kr/co/lovelydream/auth/controller/AuthController.kt:238-251 | a non-blank X-Device-Id header wins; otherwise the first 24 characters of the URL-safe base64 of SHA-256 of "ua\|ip" |
| AuthController.DeviceIdShape | src/main/kotlin/kr/co/lovelydream/auth/controller/AuthController.kt:238-251 | a device id is never empty and never has surrounding whitespace; a derived one is 24 URL-safe characters |
| AuthController.SameClientSameDevice | src/main/kotlin/kr/co/lovelydream/auth/controller/AuthController.kt:242-250 | without the header, two requests with the same user agent and client address get the same device id |
| AuthController.FirstForwardedEntry | src/main/kotlin/kr/co/lovelydream/auth/controller/AuthController.kt:243-244 | the client address is the first X-Forwarded-For entry, trimmed |
| AuthController.BlankForwardedEntryKept | src/main/kotlin/kr/co/lovelydream/auth/controller/AuthController.kt:243-244 | a blank first X-Forwarded-For entry gives the empty address, not the remote address |
| SessionSpec.Login | src/main/kotlin/kr/co/lovelydream/auth/service/impl/AuthServiceImpl.kt:41-62 | unknown e-mail gives MEMBER_NOT_FOUND and a wrong password gives AUTH_INVALID_CREDENTIAL, both leaving the store as it was. Success is exactly a known member, a matching password and a live connection. It returns an access/refresh pair for the member with the given jtis, and the pair's session alone now holds the refresh jti until that token's expiry |
| SessionSpec.WrongPasswordAnswersBadRequest | src/main/kotlin/kr/co/lovelydream/auth/service/impl/AuthServiceImpl.kt:47-50 | a wrong password reaches the client as 400, though the auth handler lists its code at 401 |
| SessionSpec.ReissueChecks | src/main/kotlin/kr/co/lovelydream/auth/service/impl/AuthServiceImpl.kt:67-86 | in the service's order: an invalid token is AUTH_INVALID_REFRESH_TOKEN; an unknown member is MEMBER_NOT_FOUND; an unreadable subject or jti is a server error; a lost connection is a store failure; a jti that is not the device's live session is AUTH_INVALID_REFRESH_TOKEN; a jti marked used is AUTH_REUSED_REFRESH_TOKEN; otherwise the checks pass with the member and the jti, and passing means exactly these conditions |
| SessionSpec.Reissue | src/main/kotlin/kr/co/lovelydream/auth/service/impl/AuthServiceImpl.kt:64-99 | succeeds exactly when the checks pass and the token has at least one whole second left, and then returns an access and a refresh token for the token's member with the given jtis; a failed check changes nothing and reports that check's failure; any other failure that changed the store is a store failure |
| SessionSpec.ReissueRotates | src/main/kotlin/kr/co/lovelydream/auth/service/impl/AuthServiceImpl.kt:87-98 | after a successful reissue the session holds the new jti and the old jti is marked used; nothing else changes; the new pair belongs to the same member |
| SessionSpec.LastSecondReissueLosesSession | src/main/kotlin/kr/co/lovelydream/auth/service/impl/AuthServiceImpl.kt:88-89 | reissue in a refresh token's last second fails with a store error after deleting the session |
| SessionSpec.ReplayAfterRotationRejected | src/main/kotlin/kr/co/lovelydream/auth/service/impl/AuthServiceImpl.kt:76-81 | a rotated refresh token presented again on that device, then or later, is refused as AUTH_INVALID_REFRESH_TOKEN and changes nothing |
| SessionSpec.LogoutAccess | src/main/kotlin/kr/co/lovelydream/auth/service/impl/AuthServiceImpl.kt:104-113 | a missing or invalid token changes nothing; a valid access token with time left is blacklisted for its remaining seconds; a failure changes nothing |
| SessionSpec.LogoutRefresh | src/main/kotlin/kr/co/lovelydream/auth/service/impl/AuthServiceImpl.kt:115-129 | a missing or invalid refresh token, and a valid refresh token whose member is unknown, are skipped: success with nothing changed; clock and connection are untouched |
| SessionSpec.Logout | src/main/kotlin/kr/co/lovelydream/auth/service/impl/AuthServiceImpl.kt:101-131 | the access half, then the refresh half; clock and connection are untouched |
| SessionSpec.LogoutSkipsUnusableTokens | src/main/kotlin/kr/co/lovelydream/auth/service/impl/AuthServiceImpl.kt:104-129 | when both tokens are absent, invalid or of the wrong typ, logout succeeds and changes nothing |
| SessionSpec.LogoutBlacklistsAccess | src/main/kotlin/kr/co/lovelydream/auth/service/impl/AuthServiceImpl.kt:104-113 | a usable access token's jti is blacklisted by logout, whatever happens to the refresh half |
| SessionSpec.LogoutRevokesSession | src/main/kotlin/kr/co/lovelydream/auth/service/impl/AuthServiceImpl.kt:115-129 | with a revocable refresh token and a device, logout deletes that session and marks the jti used; no other key changes after the access token has been handled |
| SessionSpec.LogoutNeedsDevice | src/main/kotlin/kr/co/lovelydream/auth/service/impl/AuthServiceImpl.kt:122 | a revocable refresh token without a device id makes logout fail with an unexpected error |
| SessionSpec.RevokedTokenCannotReissue | src/main/kotlin/kr/co/lovelydream/auth/service/impl/AuthServiceImpl.kt:115-129 | after logout revoked a refresh token's session, reissue with it is refused as AUTH_INVALID_REFRESH_TOKEN |
| SessionSpec.BlacklistAccessIfValid | src/main/kotlin/kr/co/lovelydream/auth/service/impl/AuthServiceImpl.kt:133-137 | an invalid token changes nothing. Any valid token, whatever its typ, with seconds left is blacklisted for them. A token without a jti is an unexpected error |
| SessionSpec.EmailCodeKey | src/main/kotlin/kr/co/lovelydream/auth/service/impl/AuthServiceImpl.kt:154-158 | `emailCode:{email}` never collides with a session, used-marker or blacklist key |
| SessionSpec.GenerateCode | src/main/kotlin/kr/co/lovelydream/auth/service/impl/AuthServiceImpl.kt:178-182 | a code lies in 100000..999999 |
| SessionSpec.EveryCodeDrawable | src/main/kotlin/kr/co/lovelydream/auth/service/impl/AuthServiceImpl.kt:178-182 | every code of the range can be drawn |
| SessionSpec.ComposeMail | src/main/kotlin/kr/co/lovelydream/auth/service/impl/AuthServiceImpl.kt:191-198 | the mail goes to the address from the fixed sender with the fixed subject, and its body is the template with the code in place of the placeholder |
| SessionSpec.SendEmailCode | src/main/kotlin/kr/co/lovelydream/auth/service/impl/AuthServiceImpl.kt:139-162 | a registered e-mail gives AUTH_EMAIL_ALREADY_EXISTS and a failed delivery AUTH_EMAIL_SEND_FAILED, both storing nothing. On success it returns six digits and stores exactly them under the e-mail's key for five minutes |
| SessionSpec.VerifyEmailCode | src/main/kotlin/kr/co/lovelydream/auth/service/impl/AuthServiceImpl.kt:164-176 | no stored code gives AUTH_CODE_EXPIRED and a different code AUTH_CODE_MISMATCH. Success is exactly the stored code, and it deletes the key and nothing else |
| SessionSpec.CodeVerifiesOnce | src/main/kotlin/kr/co/lovelydream/auth/service/impl/AuthServiceImpl.kt:154-176 | a sent code verifies within its five minutes, the last millisecond included, and a second attempt then finds no code |
| SessionSpec.CodeExpires | src/main/kotlin/kr/co/lovelydream/auth/service/impl/AuthServiceImpl.kt:154-170 | once its five minutes are over the sent code no longer verifies |
| Session.AuthService.constructor | src/main/kotlin/kr/co/lovelydream/auth/service/impl/AuthServiceImpl.kt:31-38 | the service over the given token store, members and password matcher |
| Session.AuthService.Login | src/main/kotlin/kr/co/lovelydream/auth/service/impl/AuthServiceImpl.kt:41-62 | result and new store are those of SessionSpec.Login |
| Session.AuthService.CheckRefreshToken | src/main/kotlin/kr/co/lovelydream/auth/service/impl/AuthServiceImpl.kt:67-86 | the result of the checks is that of SessionSpec.ReissueChecks, with the store read and unchanged |
| Session.AuthService.Reissue | src/main/kotlin/kr/co/lovelydream/auth/service/impl/AuthServiceImpl.kt:64-99 | result and new store are those of SessionSpec.Reissue; a successful rotation consumed a jti that had been written to the store |
| Session.AuthService.Logout | src/main/kotlin/kr/co/lovelydream/auth/service/impl/AuthServiceImpl.kt:101-131 | result and new store are those of SessionSpec.Logout |
| Session.AuthService.LogoutAccess | src/main/kotlin/kr/co/lovelydream/auth/service/impl/AuthServiceImpl.kt:104-113 | result and new store are those of SessionSpec.LogoutAccess |
| Session.AuthService.LogoutRefresh | src/main/kotlin/kr/co/lovelydream/auth/service/impl/AuthServiceImpl.kt:115-129 | result and new store are those of SessionSpec.LogoutRefresh |
| Session.AuthService.BlacklistAccessIfValid | src/main/kotlin/kr/co/lovelydream/auth/service/impl/AuthServiceImpl.kt:133-137 | result and new store are those of SessionSpec.BlacklistAccessIfValid |
| Session.AuthService.SendEmailCode | src/main/kotlin/kr/co/lovelydream/auth/service/impl/AuthServiceImpl.kt:139-162 | result and new store are those of SessionSpec.SendEmailCode |
| Session.AuthService.VerifyEmailCode | src/main/kotlin/kr/co/lovelydream/auth/service/impl/AuthServiceImpl.kt:164-176 | result and new store are those of SessionSpec.VerifyEmailCode |
| Session.AuthService.ReplayScenario | src/main/kotlin/kr/co/lovelydream/auth/service/impl/AuthServiceImpl.kt:41-99 | login, then a rotation, then a replay of the rotated token on the same device: the rotation succeeds and the replay is refused as AUTH_INVALID_REFRESH_TOKEN |
| LogoutGate.LoginTokenAdmitted | src/main/kotlin/kr/co/lovelydream/auth/filter/JwtAuthenticationFilter.kt:43-96 | up to and including its expiry (15 minutes after login, cut to whole seconds), and while not blacklisted, the access token of a login is admitted as the member's e-mail by both filter versions |
| LogoutGate.LoggedOutAccessTokenRejected | src/main/kotlin/kr/co/lovelydream/auth/service/impl/AuthServiceImpl.kt:104-113 | after logout, for the token's remaining whole seconds counted from the logout, both filter versions refuse its access token as blacklisted |
| LogoutGate.LoggedOutTokenReadmitted | src/main/kotlin/kr/co/lovelydream/auth/service/impl/AuthServiceImpl.kt:104-113 | the blacklist entry can lapse before the token: logged out 500 ms after issue, an access token is admitted again by both filter versions at its expiry |
| LogoutGate.BlacklistEntryLive | src/main/kotlin/kr/co/lovelydream/auth/service/impl/AuthServiceImpl.kt:104-113 | the blacklist entry logout writes stays live for the token's remaining whole seconds |
| MemberEntities.ParseIsoDate | src/main/kotlin/kr/co/lovelydream/member/dto/ReqSignupMemberDTO.kt:77 | text that parses has the yyyy-MM-dd shape and names a date that exists |
| MemberEntities.FormatIsoDate | src/main/kotlin/kr/co/lovelydream/member/dto/ReqSignupMemberDTO.kt:77 | a date prints in the yyyy-MM-dd shape |
| MemberEntities.FormatThenParse | src/main/kotlin/kr/co/lovelydream/member/dto/ReqSignupMemberDTO.kt:77 | printing a date and parsing it gives the date back |
| MemberEntities.ParseThenFormat | src/main/kotlin/kr/co/lovelydream/member/dto/ReqSignupMemberDTO.kt:77 | text that parses is the printed form of its date |
| MemberEntities.ShapeDoesNotMakeADate | src/main/kotlin/kr/co/lovelydream/member/dto/ReqSignupMemberDTO.kt:45-51 | "2023-02-29" passes the birth-date pattern yet does not parse |
| MemberEntities.GenderOf | src/main/kotlin/kr/co/lovelydream/member/dto/ReqSignupMemberDTO.kt:78 | a gender exists exactly for "M" and "F", and its name is the text given |
| SignupRequest.MemberViolations | src/main/kotlin/kr/co/lovelydream/member/dto/ReqSignupMemberDTO.kt:16-66 | no field error exactly when every constraint of the member form holds; at most 13 errors |
| SignupRequest.PatternsRejectBlank | src/main/kotlin/kr/co/lovelydream/member/dto/ReqSignupMemberDTO.kt:21-66 | blank text fails every pattern, so a blank field reports both its constraints |
| SignupRequest.PasswordCaseNotRequired | src/main/kotlin/kr/co/lovelydream/member/dto/ReqSignupMemberDTO.kt:57-61 | an all-lower-case and an all-upper-case password both pass the pattern |
| SignupRequest.ToMemberEntity | src/main/kotlin/kr/co/lovelydream/member/dto/ReqSignupMemberDTO.kt:72-81 | succeeds exactly when the birth date parses and the gender is a constant name. The member then carries the form's fields, the parsed date, that gender and the encoded password, and no id yet. A failure is unexpected |
| SignupRequest.ValidFormCanFailConversion | src/main/kotlin/kr/co/lovelydream/member/dto/ReqSignupMemberDTO.kt:45-81 | a form that passes validation with gender "W" or birth date "2023-02-29" still fails conversion |
| SignupTerms.Ordinal | src/main/kotlin/kr/co/lovelydream/member/dto/ReqSignupTermsDTO.kt:43-48 | each kind of terms has its place in declaration order |
| SignupTerms.WithDefaults | src/main/kotlin/kr/co/lovelydream/member/dto/ReqSignupTermsDTO.kt:34-38 | omitted marketing and personalisation flags are false |
| SignupTerms.TermsViolations | src/main/kotlin/kr/co/lovelydream/member/dto/ReqSignupTermsDTO.kt:18-32 | no error exactly when the four required consents are given; at most four errors |
| SignupTerms.AgreedUpToShape | src/main/kotlin/kr/co/lovelydream/member/dto/ReqSignupTermsDTO.kt:40-51 | the first n checks yield exactly the agreed kinds among the first n, in order |
| SignupTerms.AgreedTypesCount | src/main/kotlin/kr/co/lovelydream/member/dto/ReqSignupTermsDTO.kt:40-51 | one consent row per flag set |
| SignupTerms.AgreedTypesInOrder | src/main/kotlin/kr/co/lovelydream/member/dto/ReqSignupTermsDTO.kt:40-51 | the agreed kinds are exactly those whose flag is set, in declaration order, none twice |
| SignupTerms.MinimalRequestYieldsFour | src/main/kotlin/kr/co/lovelydream/member/dto/ReqSignupTermsDTO.kt:18-48 | the four required consents with defaults pass validation and yield service, privacy, location and payment rows |
| SignupTerms.ToMemberTermsEntity | src/main/kotlin/kr/co/lovelydream/member/dto/ReqSignupTermsDTO.kt:40-51 | one row per agreed kind, in order, each referencing the member and the map's terms of that kind |
| LoginRequest.LoginViolations | src/main/kotlin/kr/co/lovelydream/auth/dto/ReqLoginDTO.kt:10-24 | no field error exactly when the login form is valid; errors name only email and password |
| LoginRequest.SignupCredentialsPassLogin | src/main/kotlin/kr/co/lovelydream/auth/dto/ReqLoginDTO.kt:10-24 | credentials that passed sign-up validation pass login validation |
| LoginRequest.ShortPasswordRefused | src/main/kotlin/kr/co/lovelydream/auth/dto/ReqLoginDTO.kt:15-19 | a password under eight characters is refused with a password error |
| MemberTables.MemberDb.constructor | src/main/kotlin/kr/co/lovelydream/member/service/impl/MemberServiceImpl.kt:30-41 | empty tables over the published terms, both identity counters at 1 |
| MemberTables.MemberDb.SaveMember | src/main/kotlin/kr/co/lovelydream/member/service/impl/MemberServiceImpl.kt:57 | the member is appended with the next identity, which advances; nothing else changes |
| MemberTables.MemberDb.SaveAllMemberTerms | src/main/kotlin/kr/co/lovelydream/member/service/impl/MemberServiceImpl.kt:68 | the consent rows are appended in order; nothing else changes |
| MemberTables.MemberDb.SaveProfile | src/main/kotlin/kr/co/lovelydream/member/service/impl/MemberServiceImpl.kt:84 | the profile is appended with the next profile identity, which advances; nothing else changes |
| MemberTables.MemberDb.SaveAllItems | src/main/kotlin/kr/co/lovelydream/member/service/impl/MemberServiceImpl.kt:87-119 | the rows are appended to the named child table only |
| MemberTables.MemberDb.Restore | src/main/kotlin/kr/co/lovelydream/member/service/impl/MemberServiceImpl.kt:43-71 | a rolled-back transaction leaves the tables as they were when it began |
| MemberSpec.Signup | src/main/kotlin/kr/co/lovelydream/member/service/impl/MemberServiceImpl.kt:43-71 | a taken e-mail gives AUTH_EMAIL_ALREADY_EXISTS and a missing terms kind TERMS_NOT_FOUND. Success is exactly a free e-mail, a converting form and all six kinds published. Failure changes nothing. Success returns the new id, appends the member converted from the form (name, nickname, birth date, gender, encoded password, mileage 0, ACTIVE) under that id, and one consent row per agreed kind for the latest terms, and changes nothing else |
| MemberSpec.SignupKeepsTablesValid | src/main/kotlin/kr/co/lovelydream/member/service/impl/MemberServiceImpl.kt:51-68 | sign-up keeps e-mails unique, ids increasing and every consent row pointing at a saved member |
| MemberSpec.SecondSignupRefused | src/main/kotlin/kr/co/lovelydream/member/service/impl/MemberServiceImpl.kt:51-53 | after a sign-up, any sign-up with the same e-mail is refused and changes nothing |
| MemberSpec.SendEmailCode | src/main/kotlin/kr/co/lovelydream/member/service/impl/AuthServiceImpl.kt:63-77 | a registered e-mail gives AUTH_EMAIL_ALREADY_EXISTS. A failed delivery escapes as an unexpected error, and both failures store nothing. On success it returns six digits and stores exactly them for five minutes |
| MemberSpec.DirectoryLookup | src/main/kotlin/kr/co/lovelydream/member/repository/MemberRepository.kt:14 | findByEmail knows exactly the saved e-mails, each with its member's id and stored password |
| MemberSpec.SignedUpMemberCanLogIn | src/main/kotlin/kr/co/lovelydream/auth/service/impl/AuthServiceImpl.kt:41-62 | whoever signed up can log in with the same password, given an encoder whose output the matcher accepts |
| MemberSpec.Items | src/main/kotlin/kr/co/lovelydream/member/service/impl/MemberServiceImpl.kt:87-91 | one child row per value, in order, each referencing the profile |
| MemberSpec.CreateProfile | src/main/kotlin/kr/co/lovelydream/member/service/impl/MemberServiceImpl.kt:73-120 | the profile is appended with the next profile id; each child table grows by its list's length and keeps its old rows; members, terms and consents are unchanged |
| MemberSpec.CreateProfileRows | src/main/kotlin/kr/co/lovelydream/member/service/impl/MemberServiceImpl.kt:86-119 | each list lands in its own table, value by value and in order, referencing the new profile; an empty list adds nothing |
| MemberSpec.CreateProfileKeepsTablesValid | src/main/kotlin/kr/co/lovelydream/member/service/impl/MemberServiceImpl.kt:73-120 | profile creation keeps profile ids increasing and every child row pointing at a saved profile |
| Members.LatestTermsMap | src/main/kotlin/kr/co/lovelydream/member/service/impl/MemberServiceImpl.kt:60-63 | succeeds exactly when every kind has published terms, and then holds the latest terms of each kind; otherwise TERMS_NOT_FOUND |
| Members.SignupTransaction | src/main/kotlin/kr/co/lovelydream/member/service/impl/MemberServiceImpl.kt:43-71 | result and new tables are those of MemberSpec.Signup, the rollback included; table integrity is kept |
| Members.MemberService.constructor | src/main/kotlin/kr/co/lovelydream/member/service/impl/MemberServiceImpl.kt:30-41 | the service over the given tables and encoder |
| Members.MemberService.Signup | src/main/kotlin/kr/co/lovelydream/member/service/impl/MemberServiceImpl.kt:43-71 | result and new tables are those of MemberSpec.Signup |
| Members.MemberService.CreateProfile | src/main/kotlin/kr/co/lovelydream/member/service/impl/MemberServiceImpl.kt:73-120 | new tables are those of MemberSpec.CreateProfile |
| MemberAuth.SendEmailCodeMatchesSessionManager | src/main/kotlin/kr/co/lovelydream/member/service/impl/AuthServiceImpl.kt:63-105 | when the mail goes out, the member service's sendEmailCode and the session manager's agree over the member directory; on a failed delivery one is an unexpected error, the other AUTH_EMAIL_SEND_FAILED |
| MemberAuth.NoCodeAfterSignup | src/main/kotlin/kr/co/lovelydream/member/service/impl/AuthServiceImpl.kt:34-66 | once an e-mail has signed up, no code is sent to it and nothing is stored |
| MemberAuth.MemberAuthService.constructor | src/main/kotlin/kr/co/lovelydream/member/service/impl/AuthServiceImpl.kt:25-32 | the service over the given tables, store and encoder |
| MemberAuth.MemberAuthService.Signup | src/main/kotlin/kr/co/lovelydream/member/service/impl/AuthServiceImpl.kt:34-61 | result and new tables are those of MemberSpec.Signup |
| MemberAuth.MemberAuthService.SendEmailCode | src/main/kotlin/kr/co/lovelydream/member/service/impl/AuthServiceImpl.kt:63-77 | result and new store are those of MemberSpec.SendEmailCode |
| MemberAuth.MemberAuthService.VerifyEmailCode | src/main/kotlin/kr/co/lovelydream/member/service/impl/AuthServiceImpl.kt:79-91 | result and new store are those of the session manager's verifyEmailCode |
| Strings.TrimStart | src/main/kotlin/kr/co/lovelydream/auth/controller/AuthController.kt:240 | drops exactly the leading whitespace: a suffix whose first character is not whitespace |
| Strings.TrimEnd | src/main/kotlin/kr/co/lovelydream/auth/controller/AuthController.kt:240 | drops exactly the trailing whitespace: a prefix whose last character is not whitespace |
| Strings.BlankIffTrimEmpty | src/main/kotlin/kr/co/lovelydream/auth/filter/JwtAuthenticationFilter.kt:56 | `isBlank` holds exactly when trimming leaves nothing |
| Strings.SplitProperties | src/main/kotlin/kr/co/lovelydream/global/util/LoggingUtil.kt:9 | `split` gives one piece more than there are delimiters, no piece holds the delimiter, and joining the pieces gives the text back |
| Strings.RemovePrefix | src/main/kotlin/kr/co/lovelydream/auth/controller/AuthController.kt:235 | removes the prefix exactly when the text starts with it, case-sensitively |
| Strings.Take | src/main/kotlin/kr/co/lovelydream/global/util/LoggingUtil.kt:15 | the first n characters, or all when there are fewer |
| Strings.TakeLast | src/main/kotlin/kr/co/lovelydream/global/util/LoggingUtil.kt:41 | the last n characters, or all when there are fewer |
| Strings.Repeat | src/main/kotlin/kr/co/lovelydream/global/util/LoggingUtil.kt:24 | n copies of the character |
| Strings.SixDigits | src/main/kotlin/kr/co/lovelydream/auth/service/impl/AuthServiceImpl.kt:179 | a code of the range prints as exactly six digits |
| Strings.NatToStringRoundTrip | src/main/kotlin/kr/co/lovelydream/auth/service/impl/AuthServiceImpl.kt:179 | reading back the printed digits gives the number |
| Strings.IntToStringInjective | src/main/kotlin/kr/co/lovelydream/auth/service/impl/RedisTokenServiceImpl.kt:15-16 | distinct member ids print differently |

## Left out

- Signing and parsing. HMAC signing and token parsing are not modelled. A token is its claims plus a flag saying whether its signature verifies. The filter reads token text through a `decode` function given as a parameter.
- Randomness. The UUIDs drawn as jtis and the random draw of `generateCode` are parameters. Freshness of a jti is stated with the store's ghost history of written values.
- Outside systems:
  - the mail server is a `deliver` function saying whether the message was accepted;
  - `System.currentTimeMillis()` is the store's clock;
  - SHA-256 is a function parameter.
- Not modelled at all: logging calls, servlet I/O, the security context holder, and concurrency between requests.
- Jwt.GetRoles: the contract states only when the call succeeds. The roles a minted token carries are stated by `Jwt.MintedTokenReadsBack`, and the shape of roles read from a string claim by `Jwt.RolesFromTextWellFormed`.
- LoggingUtil.MaskEmail: strings are sequences of Unicode code points, while Kotlin's `length`, `take` and `takeLast` count UTF-16 units. For a local part with characters outside the Basic Multilingual Plane, the model keeps whole characters where Kotlin may cut a surrogate pair.
- LoggingUtil.MaskName: the same code-point reading. For "😀a" (three UTF-16 units) Kotlin gives a lone high surrogate followed by "**", while the model gives "😀*".
- LoggingUtil.MaskJti: the same code-point reading. Jtis are UUID text, so it matters only for other input.
- LoggingUtil.MaskDevice: the same code-point reading.
- Strings.Take: counts code points, where Kotlin's `take` counts UTF-16 units.
- Strings.TakeLast: counts code points, where Kotlin's `takeLast` counts UTF-16 units.
- Jwt.Mint: `issuedAt` is read from a second `Date()` call in the source. The model uses the same instant for the issue time and for the expiry's base.
- AuthFilter.DoFilterAsWritten: each request's token reads happen at one instant. In the source every jjwt parse reads the clock anew, so a token that expires between `getTyp` and `isValid` is answered `INVALID_OR_EXPIRED_ACCESS_TOKEN`. The same holds for `AuthFilter.DoFilter`.
- AuthFilter.CheckIdentity: the same single-instant reading. A token that expires between `isValid` and `getJti` or `getEmail` is answered `ACCESS_TOKEN_JTI_MISSING` or `ACCESS_TOKEN_SUBJECT_MISSING` in the source.
- SessionSpec.Reissue: the same single-instant reading. A token that expires between `isValid` and `getRemainingTtlSeconds` makes the source throw after the session has been deleted.
- SessionSpec.Logout: the same single-instant reading. The validity check and the later reads of each token use one clock value.
- Jwt.ParseClaims: every modelled token carries an expiry claim. A signed token without one is not modelled: jjwt parses it, `isValid` rejects it, and the filter as written would then answer `INVALID_OR_EXPIRED_ACCESS_TOKEN`. The finding below is about tokens that carry an expiry, as every token this service mints does.
- AuthFilter.ShouldNotFilter: AntPathMatcher is modelled only for the two pattern shapes the whitelist uses. These are literal paths and a trailing `/**`. Its other wildcards are not modelled.
- SignupRequest.MemberViolations: `@Email` is a predicate given as a parameter. Its regular expression is not modelled.
- SignupRequest.MemberViolations: the field errors come in declaration order. Hibernate Validator does not fix their order.
- LoginRequest.LoginViolations: the same two limits apply. `@Email` is a parameter, and field errors come in declaration order.
- MemberEntities.ParseIsoDate: only four-digit years are modelled. Signed and longer years, which `LocalDate` also reads and prints, are not.
- MemberTables.MemberDb.FindTopByTypeOrderByVersionDesc: it answers from a map holding the latest terms of each kind. Ordering versions as strings is not modelled.
- MemberTables.MemberDb.Restore: a rollback also restores the identity counter, so it does not model the identity gap a database leaves after a rollback.
- Password encoding is an `encode` function given as a parameter. Password matching is a `matches` predicate, also a parameter.
- Request validation of the profile DTO (`@Min`, `@NotBlank`, `@NotEmpty`) is not modelled. The service itself does not check that the member of a new profile exists, and neither does the model.
- The `TermsType` enum is not part of this model. The order of its six kinds is taken from `toMemberTermsEntity`.
- `AUTH_INVALID_REFRESH_TOKEN` and `AUTH_REUSED_REFRESH_TOKEN` are referenced by the code but missing from `ResponseCode`. They are given the wire codes "A007" and "A008" and short messages of their own.
- `ACCESS_BLACKLIST_PREFIX` is likewise missing from `JwtConstants`. It is `access:blacklist:`, the key layout documented in `TokenStoreServiceImpl.kt`.
- Code that would not compile as written is modelled by its evident meaning:
  - The login projection has no e-mail, so login uses the e-mail it looked the member up by.
  - The session manager calls `getEmail`, which means the provider's `getMemberId`.
- The controllers' request handling beyond the two header helpers is not modelled: cookies, response bodies and status wrapping.

## Findings

| source | as written | input that shows it | evidently intended | confidence | as-written member | corrected member |
|---|---|---|---|---|---|---|
| src/main/kotlin/kr/co/lovelydream/auth/filter/JwtAuthenticationFilter.kt:63-71 | `getTyp` runs before `isValid` and outside any `runCatching`. It parses the token, which throws for an expired or forged token. The exception escapes the filter, and for a token with an expiry claim the `INVALID_OR_EXPIRED_ACCESS_TOKEN` rejection is never produced, unless the token expires between the getTyp and isValid reads | an access token presented 1 ms after its expiry | an invalid or expired token is answered with 401 `INVALID_OR_EXPIRED_ACCESS_TOKEN` | not executed | AuthFilter.DoFilterAsWritten, AuthFilter.ExpiredAccessTokenCrashes | AuthFilter.DoFilter |
