# Session lifecycle of the task-tracking API, in Dafny

This project models the session core of a small multi-user task-tracking API.
The API is an Express application backed by Prisma, Redis, JWT and bcrypt. Login
is passwordless:

- `POST /send-otp` creates the user if needed. It stores a six-digit code in Redis
  under `otp:<email>` for 300 seconds and mails it.
- `POST /verify-otp` checks the code and deletes it, so it works once. It marks
  the user verified and returns an access token (15 minutes) and a refresh
  token (7 days). The two are signed with different secrets. Only a bcrypt
  digest of the refresh token is stored on the user.
- `POST /refresh-token` checks the presented refresh token against that digest
  and rotates it. It issues a new pair and stores the digest of the new
  refresh token, so that a token rotated away should no longer work. As
  written, a token rotated away soon after its issue keeps working for the
  rest of its 7-day lifetime: bcrypt reads only the first 72 bytes of the
  token (see "## Findings").
- `POST /logout` clears the digest.
- Every task route passes the authorization gate first. The gate splits the
  `Authorization` header on single spaces and takes the second field as the
  token. `Bearer a b` gives `a`; `Bearer  a`, with two spaces, gives the empty
  field and a 401. Tasks are
  scoped to the caller: update and delete match on `(id, userId)`, so a
  missing task and another user's task give the same 404.

The model also covers the Joi request validators, the final error handler, the
response builders and the activity log.

The source's own forms are kept:

- Database tables are fields of a `Store.Db` class: users as a map by id, tasks
  and activities as sequences. The Redis client is an `OtpService.Redis` class.
- Handlers that change state are methods with `modifies` frames. Each method's
  `ensures` ties the new state to pure functions such as `Issue`, `Consume`,
  `Rotate`, `Revoke`, `UpdateMatching` and `RemoveMatching`. The lemmas about
  the session are proved about those functions.
- Pure code stays pure: validators, error classification, response builders
  and token verification are functions.

Some parts are abstracted:

- **Clock.** Each request carries `nowMs`, in milliseconds. A Redis key is live
  while `nowMs <= expiresAt`. JWT times are whole seconds, `nowMs / 1000`, and
  a token is refused once that value reaches `exp`.
- **JWT.** The two secrets are distinct key ids. A signed token is the string
  `userId.iat.exp.key` of decimal fields. `Jwt.Decode` accepts only canonical
  strings, so two tokens are equal exactly when their payloads and keys are
  (`Jwt.EncodeInjective`). Verification checks the structure, then the key,
  then the expiry, as `jwt.verify` does.
- **bcrypt.** A digest records the cost, the salt and the text. The salt is a
  parameter, because it is random. Two comparisons are modelled.
  `Bcrypt.Compare` succeeds exactly when the whole text is the same; the rest
  of the model uses it. `Bcrypt.CompareTruncated` reads only the first 72
  bytes, as the library does. `JwtWire` gives the bytes a token really has on
  the wire, so that the truncated comparison can be applied to the token
  service as written (`TokenService.RotateAsWritten`).
- **Collaborators.** The outcomes of the Redis `setex`/`get`/`del`, the mail
  transport and the activity write are boolean parameters.
- **Express async errors.** The model assumes Express 4, which does not catch
  a rejected async handler. A rethrown error therefore ends in
  `Outcome.Threw(message)`. A normal reply is `Outcome.Replied(response)`.
  Under Express 5 a `Threw` outcome would reach `errorHandler` instead. A
  failed OTP send would then be answered 500 `Failed to send OTP`.

Three behaviours of the code worth knowing:

- **Same-second rotation.** `jwt.sign` is deterministic, and `iat` has
  one-second resolution. A refresh token rotated in the same second it was
  issued therefore comes back as the same string. The old token then stays
  valid, because it is the new one. `TokenService.RotatedTokenIsNewUnlessSameSecond`
  states exactly when this happens. `TokenService.StaleTokenRejected` states
  the reuse detection a whole-token comparison gives. The code as written
  gives less (see "## Findings").
- **The code 999999 is never issued.** `crypto.randomInt(100000, 999999)`
  excludes its upper bound. The issued codes run from 100000 to 999998
  (`OtpService.DrawnCodeIsOtpCode`). The verify-OTP schema still accepts any
  six digits (`ValidateMiddleware.IssuedCodePassesSchema`).
- **The `otp_failed` record has no user id.** An invalid OTP is logged without
  a user id, even when the user exists.

## Model

| member | source | states |
|---|---|---|
| Text.ToString | src/services/otp.service.js:23 | `Number.prototype.toString` for naturals: non-empty, all decimal digits, leading `0` only for zero |
| Text.ToStringInjective | src/services/otp.service.js:23 | two naturals print the same exactly when they are equal |
| Text.ToStringLength | src/services/otp.service.js:23 | a number in `[10^(k-1), 10^k)` prints with exactly k digits |
| Text.Split | src/middleware/auth.middleware.js:6 | `String.prototype.split` on one character: at least one field, and no field contains the separator |
| Jwt.Sign | src/services/token.service.js:8-9 | the signed token decodes to `(userId, floor(now / 1000), floor(now / 1000) + lifetime)` under the key |
| Jwt.Decode | src/services/token.service.js:22 | only the canonical encoding of a token decodes, and decoding gives back that token |
| Jwt.DecodeEncode | src/services/token.service.js:8-9 | decoding a signed token gives back the token that was signed |
| Jwt.EncodeInjective | src/services/token.service.js:8-9 | two signed tokens are the same string exactly when payload and key are the same |
| Jwt.EncodeHasNoSpace | src/middleware/auth.middleware.js:6 | a signed token is non-empty and contains no space, so it survives the header split |
| Jwt.Verify | src/services/token.service.js:59 | success only for the encoding of a token under the given key whose `exp` is still ahead |
| Jwt.VerifyEncoded | src/services/token.service.js:22 | verifying a token gives its payload, `invalid signature` under another key, or `expired` once `exp` is reached |
| Jwt.SignThenVerify | src/services/token.service.js:8-9 | `sign(userId, key, lifetime)` then `verify` gives the payload `(userId, iat, iat + lifetime)` under the same key before expiry, and fails otherwise |
| Bcrypt.CompareHash | src/services/token.service.js:33 | `compare(candidate, hash(text))` holds exactly when the candidate is the hashed text (the whole-text comparison) |
| Bcrypt.Hash | src/services/token.service.js:16 | the digest records the cost and the salt and accepts its own text under both comparisons |
| Bcrypt.Truncate | src/services/token.service.js:33 | bcrypt's input is the whole text when it has at most 72 bytes, and exactly its first 72 bytes otherwise |
| Bcrypt.CompareTruncated | src/services/token.service.js:33 | the library's comparison accepts whatever the whole-text comparison accepts, and agrees with it when both texts have at most 72 bytes |
| Bcrypt.CompareTruncatedHash | src/services/token.service.js:33 | the library's comparison holds exactly when the first 72 bytes agree; it equals the whole-text comparison for short texts and accepts long texts that share 72 bytes |
| JwtWire.Base64Url | src/services/token.service.js:8-9 | base64url without padding turns n bytes into `(4n + 2) / 3` characters |
| JwtWire.Base64UrlOfPrefix | src/services/token.service.js:8-9 | the first `4k` characters of the encoding depend only on the first `3k` bytes |
| JwtWire.Base64UrlOfSuffix | src/services/token.service.js:8-9 | dropping `3k` bytes drops exactly the first `4k` characters of the encoding |
| JwtWire.Base64UrlGroup | src/services/token.service.js:8-9 | characters `4k` to `4k + 3` of the encoding are the quad of bytes `3k` to `3k + 2` |
| JwtWire.QuadHead | src/services/token.service.js:8-9 | the first three characters of a quad see only the top two bits of its third byte |
| JwtWire.Base64UrlHead | src/services/token.service.js:33 | the first 35 characters of an encoding are fixed by bytes 0 to 25 and the top two bits of byte 26 |
| JwtWire.ClaimsLead | src/services/token.service.js:8-9 | the claims JSON before the digits of `iat` has 17 characters plus the digits of the user id |
| JwtWire.ClaimsJson | src/services/token.service.js:8-9 | `JSON.stringify` of `{userId, iat, exp}`: the lead, then the digits of `iat`; at least 28 characters, ending in `}` |
| JwtWire.Wire | src/services/token.service.js:8-9 | the token as sent starts with the HS256 header and a dot and is always longer than bcrypt's 72 bytes |
| JwtWire.WireOfEncode | src/services/token.service.js:8-9 | a model token stands for the wire string of that token |
| JwtWire.VisibleIatDigits | src/services/token.service.js:33 | bcrypt sees `9 - k` leading digits of `iat` for a user id of k digits, and none from nine digits on |
| JwtWire.ClaimsPrefix | src/services/token.service.js:33 | for a ten-digit `iat`, the first 26 bytes of the claims are the lead and the visible digits, and byte 26 is a digit; for a long lead they are the lead alone |
| JwtWire.ClaimsHead | src/services/token.service.js:33 | claims of one user whose `iat` agree on the visible digits share bytes 0 to 25 and the top two bits of byte 26 |
| JwtWire.TruncateWire | src/services/token.service.js:33 | bcrypt reads of a token the 36-character header, the dot and 35 characters of the encoded claims |
| JwtWire.BcryptReadsHead | src/services/token.service.js:33 | bcrypt's input from every token is the header, the dot and the first 35 characters of the encoded claims |
| JwtWire.SameBcryptInput | src/services/token.service.js:33 | two tokens of one user whose ten-digit `iat` agree on the visible digits give bcrypt the same input, whatever their expiry and secret |
| JwtWire.HundredSecondWindow | src/services/token.service.js:33 | for a one-digit user id, two ten-digit `iat` in the same 100 seconds (equal `iat / 100`) agree on the visible digits |
| JwtWire.LongIdNoWindow | src/services/token.service.js:33 | for a user id of nine or more digits, any two ten-digit `iat` agree on the visible digits |
| Store.Db.FindUserByEmail | src/controllers/auth.controller.js:12 | finds a user exactly when one has the email, and returns that user's id |
| Store.Db.CreateUser | src/controllers/auth.controller.js:14 | adds one fresh row with the email, no refresh token and the given verified flag; emails stay unique |
| Store.Db.SetVerified | src/controllers/auth.controller.js:41-44 | sets only that user's verified flag |
| Store.Db.SetRefreshToken | src/controllers/auth.controller.js:50-53 | replaces only that user's stored digest |
| ActivityService.LogActivity | src/services/activity.service.js:5-14 | appends exactly one record `(type, message, userId)` when the write succeeds; a failed write changes nothing and is not reported |
| OtpService.OtpKeyInjective | src/services/otp.service.js:24 | different emails use different Redis keys |
| OtpService.DrawnCodeIsOtpCode | src/services/otp.service.js:23 | every code `randomInt(100000, 999999)` can produce prints as six digits with no leading zero, and is never `999999` |
| OtpService.Redis.Get | src/services/otp.service.js:50 | GET returns a value exactly while the key is set and not yet expired, and then the stored value |
| OtpService.Issue | src/services/otp.service.js:27 | after issue, the email's key yields the code up to 300 s later and nothing after; every other key is kept |
| OtpService.Consume | src/services/otp.service.js:59 | after consume, the email's key is gone; every other key is kept with its entry |
| OtpService.Accepts | src/services/otp.service.js:51-53 | an accepted submission is non-empty and is the live stored code |
| OtpService.Redis.SetEx | src/services/otp.service.js:27 | SETEX overwrites the key's value and restarts its expiry |
| OtpService.Redis.Del | src/services/otp.service.js:59 | DEL removes exactly that key |
| OtpService.GenerateOtp | src/services/otp.service.js:21-45 | succeeds exactly when the Redis write and the mail both succeed; every failure is `Failed to send OTP`; once written, a six-digit code is stored for 300 s, and on success it is the returned code; a failed mail leaves it stored |
| OtpService.VerifyOtpFromRedis | src/services/otp.service.js:48-67 | true exactly when Redis works and a live, non-empty, identical code is stored; only then is the code deleted; any Redis error gives false and never throws |
| OtpService.IssuedCodeAccepted | src/services/otp.service.js:51-53 | a just-issued code is accepted exactly when the submission is identical and at most 300 s have passed |
| OtpService.ConsumedCodeRejected | src/services/otp.service.js:59 | once the code is deleted, no submission for that email is accepted |
| OtpService.ReissueOverwrites | src/services/otp.service.js:27 | a second issue replaces the first: only the newest code counts |
| OtpService.OtherEmailUnaffected | src/services/otp.service.js:50 | issuing or consuming one email's code does not change what another email accepts |
| TokenService.GenerateTokens | src/services/token.service.js:7-12 | the access token and the refresh token of a pair always differ |
| TokenService.HashRefreshToken | src/services/token.service.js:15-17 | the digest has cost 10 and, whatever the salt, accepts the hashed token and no other string (whole-text comparison) |
| TokenService.VerifyAccessToken | src/services/token.service.js:57-63 | returns the payload only for an unexpired access-secret token; every failure is the single error `Invalid access token` |
| TokenService.GeneratedPairVerifies | src/services/token.service.js:57-63 | an issued access token verifies to `(userId, iat, iat + 900)` for 15 minutes; the refresh token of the pair never verifies as an access token |
| TokenService.RotateWith | src/services/token.service.js:20-54 | for any comparison of token and digest, every check comes before the single write: a failed rotation leaves the user table unchanged, and a successful one had a verified token |
| TokenService.Rotate | src/services/token.service.js:20-54 | rotation with the whole token compared; a failed rotation leaves the user table unchanged |
| TokenService.CompareAsWritten | src/services/token.service.js:33 | `bcrypt.compare(token, digest)` on the wire strings: the library's truncated comparison of the presented token with the token the digest was made from |
| TokenService.RotateAsWritten | src/services/token.service.js:20-54 | rotation with bcrypt's truncated comparison; a failed rotation leaves the user table unchanged |
| TokenService.RotateWithAccepted | src/services/token.service.js:22-49 | a verified token whose user holds a digest the comparison accepts rotates: the new pair is returned and its refresh digest stored on that user alone |
| TokenService.RotateWithRefused | src/services/token.service.js:33-36 | a verified token whose user's digest refuses it fails with `Invalid refresh token` and changes nothing |
| TokenService.RefreshTokenIs | src/services/token.service.js:9 | the refresh token of a pair is the refresh-secret token `(userId, iat, iat + 7 days)` |
| TokenService.SameHeadMatchesAsWritten | src/services/token.service.js:33 | tokens whose wire strings share bcrypt's 72 bytes match each other's digests as written |
| TokenService.SameWindowRefreshTokensMatch | src/services/token.service.js:33 | refresh tokens of one user whose issue seconds agree on the digits bcrypt sees match each other's digests as written |
| TokenService.SameWindowTokensMatchAsWritten | src/services/token.service.js:33 | the same, for the refresh tokens `generateTokens` mints at two instants |
| TokenService.IssuedTokenRotatesEitherWay | src/services/token.service.js:22-49 | a refresh token whose digest is stored rotates under both comparisons, to the same pair and the same table |
| TokenService.StaleAcceptedAsWritten | src/services/token.service.js:33 | once the stored digest is of a token from within bcrypt's window, the older token still rotates as written while it is unexpired |
| TokenService.StaleRefusedInFull | src/services/token.service.js:33-36 | compared in full, the digest of a token from another second refuses the older token |
| TokenService.StaleTokenRotatesAsWritten | src/services/token.service.js:33 | as written, a refresh token rotated away within bcrypt's window of its issue rotates again at any time before it expires; compared in full it is refused |
| TokenService.ReuseAfterRotationExample | src/services/token.service.js:33 | user 7 logs in at 1760000000000 ms and rotates 50 s later; six days after login the first refresh token still rotates as written and is refused in full |
| TokenService.VerifyAndRotateRefreshToken | src/services/token.service.js:20-54 | the outcome and the new user table are those of `Rotate` |
| TokenService.AccessTokenCannotRotate | src/services/token.service.js:22 | an access token presented for rotation fails with invalid signature and changes nothing |
| TokenService.NoSessionNoRotation | src/services/token.service.js:28-30 | a token whose user is missing or has no stored digest fails with `Invalid refresh token` and changes nothing |
| TokenService.RotationRebinds | src/services/token.service.js:39-49 | after a rotation the token's user stores the digest of the new refresh token, no other user changes, and the new pair is bound to the same user |
| TokenService.StaleTokenRejected | src/services/token.service.js:32-36 | with the whole token compared, after a rotation the presented token rotates again only if it is the very token just handed out |
| TokenService.RotatedTokenIsNewUnlessSameSecond | src/services/token.service.js:39 | the rotated refresh token equals the presented one exactly when the presented one was issued in the current second with the 7-day lifetime |
| TokenService.IssuedRefreshTokenRotates | src/services/token.service.js:22-39 | the refresh token whose digest is stored rotates successfully for 7 days, giving the pair minted at rotation time |
| AuthController.TokensBody | src/controllers/auth.controller.js:57 | `res.json(tokens)`: an object with exactly `accessToken` and `refreshToken`, each the pair's token as a string |
| AuthController.SendOtp | src/controllers/auth.controller.js:7-25 | the user with the email exists afterwards (created unverified if absent, untouched otherwise); a failed send throws `Failed to send OTP` and logs nothing; success answers 200 and logs `otp_sent` with the user's id |
| AuthController.SignIn | src/controllers/auth.controller.js:37-53 | the user with the email is created verified or marked verified, and the digest of the new refresh token is stored on it; nothing else changes |
| AuthController.VerifyOtp | src/controllers/auth.controller.js:27-62 | a rejected code answers 400 `Invalid OTP`, leaves users and code alone and logs `otp_failed` without a user id; an accepted code is consumed and leaves exactly one verified user with that email, holding the digest of the returned refresh token; `login_success` is logged |
| AuthController.RefreshToken | src/controllers/auth.controller.js:64-76 | the users are updated as `Rotate` says; any failure answers 401 `Invalid refresh token`; success answers the new pair and logs `token_refresh` |
| AuthController.Revoke | src/controllers/auth.controller.js:83-86 | the user keeps its id, email and verified flag and loses its digest; every other user is unchanged |
| AuthController.Logout | src/controllers/auth.controller.js:78-95 | clears only the caller's digest and logs `logout`; an id with no row makes the update throw, and nothing changes |
| AuthController.LogoutEndsSession | src/controllers/auth.controller.js:83-86 | after logout, no refresh token of that user rotates |
| TaskController.StatusOrDefault | src/controllers/task.controller.js:14 | a given non-empty status is kept; absent or empty becomes `pending` |
| TaskController.TaskJson | src/controllers/task.controller.js:21 | the row as sent is an object with exactly the six columns as keys |
| TaskController.TaskJsonInjective | src/controllers/task.controller.js:21 | nothing of the row is lost: distinct rows are sent as distinct bodies |
| TaskController.TasksJson | src/controllers/task.controller.js:37 | one JSON row per task, in order |
| TaskController.CreateTask | src/controllers/task.controller.js:5-26 | appends one row with a fresh id, owned by the id from the token, with status defaulting to `pending`; answers 201 with the row and logs `task_created` |
| TaskController.OwnedBy | src/controllers/task.controller.js:33 | exactly the rows whose owner is the caller |
| TaskController.ConsNewestFirst | src/controllers/task.controller.js:34 | a row no older than the head of a newest-first list can go in front of it |
| TaskController.InsertNewestFirst | src/controllers/task.controller.js:34 | inserting into a newest-first list keeps it newest-first and adds exactly the one row |
| TaskController.SortNewestFirst | src/controllers/task.controller.js:34 | newest-first by `createdAt`, and a permutation of the input |
| TaskController.FindOwnTasks | src/controllers/task.controller.js:32-35 | newest-first, and the same rows with the same multiplicities as the caller's rows in the table |
| TaskController.GetTasks | src/controllers/task.controller.js:28-42 | answers 200 with `FindOwnTasks` of the table and changes nothing |
| TaskController.ApplyPatch | src/controllers/task.controller.js:52 | an update never changes a task's id, owner or creation time |
| TaskController.UpdateMatching | src/controllers/task.controller.js:50-53 | patches exactly the rows matching `(id, userId)`; every other row, including other users' rows, is unchanged |
| TaskController.CountMatching | src/controllers/task.controller.js:55 | the count is at most the number of rows, and is 0 exactly when no row matches `(id, userId)` |
| TaskController.RemoveMatching | src/controllers/task.controller.js:73-75 | removes exactly the rows matching `(id, userId)`; the length drops by the match count |
| TaskController.ConsKeepsTableValid | src/controllers/task.controller.js:73-75 | a row with a fresh id below the counter can head a valid table |
| TaskController.RemoveMatchingKeepsTableValid | src/controllers/task.controller.js:73-75 | deleting keeps task ids distinct and below the counter |
| TaskController.AtMostOneMatch | src/controllers/task.controller.js:50-53 | with distinct ids, `updateMany`/`deleteMany` count at most one row |
| TaskController.NoMatchWhenIdAbsentOrForeign | src/controllers/task.controller.js:55-57 | a missing id and another user's id both count 0, hence the same 404 |
| TaskController.UpdateTask | src/controllers/task.controller.js:44-66 | the table becomes `UpdateMatching`; count 0 answers 404 `Task not found or not authorized` and logs nothing; otherwise 200 and `task_updated` |
| TaskController.DeleteTask | src/controllers/task.controller.js:68-88 | the table becomes `RemoveMatching`; count 0 answers 404 `Task not found or not authorized` and logs nothing; otherwise 200 and `task_deleted` |
| AuthMiddleware.ExtractToken | src/middleware/auth.middleware.js:6 | a token, when found, is non-empty and has no space |
| AuthMiddleware.Authenticate | src/middleware/auth.middleware.js:5-21 | passes exactly when a token is found and verifies as an access token, with that payload as the user; every refusal is a 401 |
| AuthMiddleware.AuthenticateRequest | src/middleware/auth.middleware.js:5-21 | on pass, sets `req.user`, calls `next` once and sends nothing; on refusal, sends the 401 and neither sets the user nor calls `next` |
| AuthMiddleware.SchemeIsNotChecked | src/middleware/auth.middleware.js:6 | any one-word scheme before the space gives the same token |
| AuthMiddleware.MissingTokenIsUnauthorized | src/middleware/auth.middleware.js:8-11 | no header, or a header without a space, is refused 401 `Unauthorized` |
| AuthMiddleware.BearerField | src/middleware/auth.middleware.js:6 | `<scheme> <token>` yields exactly the token |
| AuthMiddleware.IssuedTokensAtTheGate | src/middleware/auth.middleware.js:13-16 | an issued access token passes with its user for 15 minutes, and `Invalid token` follows; the pair's refresh token is always refused |
| ValidateMiddleware.Valid | src/middleware/validate.middleware.js:4-27 | the five schemas as stated; no schema admits an empty body or a key it does not name |
| ValidateMiddleware.RuleViolation | src/middleware/validate.middleware.js:5-26 | one value against one rule, in Joi's order; a violation names the given key and is never a missing-key or unknown-key error |
| ValidateMiddleware.FieldsViolation | src/middleware/validate.middleware.js:32 | the first violation among the schema's keys names one of those keys, and reports a key missing only when it is absent |
| ValidateMiddleware.RuleViolationAgrees | src/middleware/validate.middleware.js:5-26 | a single value passes Joi's rule exactly when it meets the rule's predicate |
| ValidateMiddleware.FieldsViolationAgrees | src/middleware/validate.middleware.js:32 | no violation among the schema's keys exactly when every field holds |
| ValidateMiddleware.OtpFieldsAgree | src/middleware/validate.middleware.js:4-15 | for the three auth schemas, the field rules and the absence of unknown keys match the schema as stated |
| ValidateMiddleware.TaskFieldsAgree | src/middleware/validate.middleware.js:17-27 | for the two task schemas, the field rules, the absence of unknown keys and `.min(1)` match the schema as stated |
| ValidateMiddleware.CheckAgrees | src/middleware/validate.middleware.js:4-27 | Joi's ordered check finds nothing exactly when the body meets the schema |
| ValidateMiddleware.Check | src/middleware/validate.middleware.js:32 | `schema.validate(body)` reports no error exactly when the body meets the schema |
| ValidateMiddleware.Describe | src/middleware/validate.middleware.js:36 | every detail message is non-empty, and a violation of one key starts with that key in quotes, as Joi writes it |
| ValidateMiddleware.Validate | src/middleware/validate.middleware.js:30-41 | calls `next` exactly when the body is valid; otherwise answers 400 `Validation error` with at least one detail message |
| ValidateMiddleware.UpdateBodyIsAPatch | src/middleware/validate.middleware.js:23-27 | a valid update body is exactly a non-empty patch of title, description and status; no `userId` reaches the update |
| ValidateMiddleware.IssuedCodePassesSchema | src/middleware/validate.middleware.js:10 | every issued code, sent with a well-formed email, passes the verify-OTP schema |
| ErrorMiddleware.DefaultStatus | src/middleware/error.middleware.js:12 | `err.statusCode` when it is present and non-zero, otherwise 500 |
| ErrorMiddleware.DefaultMessage | src/middleware/error.middleware.js:13 | `err.message` when non-empty, otherwise `Internal Server Error` |
| ErrorMiddleware.Classify | src/middleware/error.middleware.js:12-24 | the status is never 0 and the message never empty |
| ErrorMiddleware.ErrorHandler | src/middleware/error.middleware.js:3-32 | answers with the classified status and message; the body has `stack` exactly outside production when the error has one |
| ErrorMiddleware.AlwaysAnswers | src/middleware/error.middleware.js:12-24 | every error gets a non-zero status and a non-empty message |
| ErrorMiddleware.ProductionHidesStack | src/middleware/error.middleware.js:26-31 | in production the body is the message alone |
| ErrorMiddleware.ChainPrecedence | src/middleware/error.middleware.js:15-24 | `ValidationError` gives 400 and `UnauthorizedError` gives 401, whatever the code; P2002 gives 409 only when neither name matches; any other error gets its own status and message, with the defaults |
| ErrorMiddleware.BareErrorIs500 | src/middleware/error.middleware.js:12-13 | an unnamed error with no status and no message is 500 `Internal Server Error` |
| ResponseBuilders.SuccessResponse | src/utils/response.js:3-7 | the status is the argument; the body holds the message, and holds `data` exactly when it is not null |
| ResponseBuilders.ErrorResponse | src/utils/response.js:9-13 | the status is the argument; the body holds the message, and holds `errors` exactly when it is truthy |
| ResponseBuilders.Defaults | src/utils/response.js:3 | with no arguments beyond the message, success is 200 and error is 500, each with the message alone |
| ResponseBuilders.FalsyPayloads | src/utils/response.js:11 | `false`, `0` and `""` are kept as success data but dropped as error details |
| Scenarios.OtpIsSingleUse | src/controllers/auth.controller.js:31-35 | a code that logged in once gets 400 `Invalid OTP` the second time |
| Scenarios.LoginThenRefresh | src/controllers/auth.controller.js:64-76 | the refresh token from a login rotates within 7 days into the pair minted at that time |
| Scenarios.LogoutThenReplay | src/controllers/auth.controller.js:78-95 | with an issued pair, the gate passes, logout succeeds, and then the pair's refresh token is refused 401 |
| Scenarios.LoginRefreshLogout | src/controllers/auth.controller.js:27-95 | login, rotation, gate and logout all succeed in turn, and afterwards the rotated refresh token is refused |

## Left out

- Mail delivery (nodemailer) is a success flag. The mail's content and sender are not modelled.
- Logging (`logger`) is not modelled. It has no effect on any response or state.
- Redis and database failures outside the modelled paths are not modelled. That covers Prisma errors on user create or update in `verifyOTP`, and on `findMany`, `create`, `updateMany` or `deleteMany` on tasks. The modelled paths are: setex, mail, get and del in the OTP service; the activity write; and the missing row in logout.
- Concurrency is not modelled, since every handler runs as one sequential step. Left out with it are: two requests creating the same email at once (P2002 on `user.create`), two rotations of the same token both passing the digest check, and two OTP issues racing.
- Bcrypt.CompareHash: states the whole-text comparison, stronger than the library, which reads only the first 72 bytes. The rest of the model uses it as the intended behaviour. The library's comparison is `Bcrypt.CompareTruncated`, and its effect on rotation is `TokenService.RotateAsWritten` (see "## Findings"). The one-wayness of bcrypt is not modelled.
- Secrets come from the environment. They are modelled as two distinct constants.
- A token is an abstract payload with a canonical encoding. Only for bcrypt's 72 bytes is its wire form written out (`JwtWire.Wire`): the header, the dot and the base64url claims JSON. The HMAC signature stays abstract. The header is written as its known base64url constant; its encoding is not re-derived. `JwtWire.SameBcryptWindow` covers ten-digit `iat` values, September 2001 to the year 2286. That two tokens outside the window give bcrypt different input is not proved.
- User ids are natural-number counters, printed in canonical decimal in the claims. The id type decides which bytes of the claims bcrypt compares. With string ids (a UUID or a cuid, say) the 72 bytes end inside the id, so every unexpired refresh token of a user would match its digest. The Prisma schema is not part of this model.
- Lengths in the Joi rules count Dafny characters, not UTF-16 code units. The email format is the parameter `isEmail`, and Joi's email rules are not modelled.
- ValidateMiddleware.Describe: for unknown keys the detail text does not name the key as Joi does. The body is an unordered map, so there is no first unknown key.
- Task ids are naturals. The route parameter is taken to name an id already. The Prisma schema, and with it the id's column type and the parsing of the path string, is not part of this model. The activity message prints the id in canonical decimal.
- The `createdAt` of a task is the request clock. Prisma's `updatedAt` and the timestamps on users and activities are not modelled.
- TaskController.TaskJson: sends `createdAt` as a JSON number. Prisma returns a `DateTime`, which `res.json` serialises as an ISO 8601 string; the string form is not modelled.
- The wiring in `src/app.js` and the route files is not modelled. That covers helmet, CORS, the rate limiters, Swagger, the health check and the order of middleware. The handlers are modelled on their own. The routes run `validate` before every handler except `getTasks`, `deleteTask` and `logout`, and `authenticate` before `logout` and every task handler.
- `Outcome.Threw` is where the model stops. This assumes Express 4, where a rejected async handler does not reach `errorHandler`; the error handler is modelled as a separate function. Under Express 5 a thrown error would go on to `errorHandler`. The composition of the two is not modelled.
- TaskController.SortNewestFirst: rows with equal `createdAt` may come out in any order, as the database does not promise one.

## Findings

| source | as written | input that shows it | evidently intended | confidence | as-written member | corrected member |
|---|---|---|---|---|---|---|
| src/services/token.service.js:33 | `bcrypt.compare(token, user.refreshToken)` reads only the first 72 bytes of the JWT: the 36-character header, the dot and 35 characters of the encoded claims. Those cover claims bytes 0 to 25 and only the top two bits of byte 26, which are 0 for a digit. For a user id of k digits, bcrypt sees the first `9 - k` digits of `iat`: a 100-second window for a one-digit id, more than the 7-day lifetime from five digits on, and no digit at all from nine on. A token rotated away within that window stays usable until it expires. | User 7 logs in at 1760000000000 ms and rotates 50 s later. Six days after login (1760518400000 ms) the first refresh token, rotated away, still rotates. | A refresh token rotated away is refused, which needs the whole token compared (or a digest of it, such as SHA-256, before bcrypt). | not executed | TokenService.StaleTokenRotatesAsWritten | TokenService.StaleTokenRejected |

`TokenService.ReuseAfterRotationExample` is the row's input as a lemma. The
rest of the model (`Rotate`, the controllers and the scenarios) uses the
whole-token comparison. With string user ids the compared prefix would end
before `iat`, and every unexpired refresh token of the user would match.
