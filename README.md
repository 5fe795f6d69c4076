# Chirpy core in Dafny

Chirpy is a small HTTP API for short messages ("chirps"). This project models its core:

- how credentials are read from the `Authorization` header (`Bearer <token>` for users, `ApiKey <key>` for the Polka payment webhook);
- how refresh tokens are made (32 random bytes, written as lower-case hex) and how access tokens are requested;
- the profanity filter `cleanChirp`, which splits a chirp into words, replaces each bad word with `****` whatever its case, and joins the words again with single spaces;
- the decisions the request handlers make: which status answers which request, and what changes in the user, chirp and refresh-token tables.

Modules:

- `Wrappers`: `Option` and `Result`.
- `GoStrings`: the parts of Go's `strings` and `unicode` packages that the core relies on. This covers `TrimSpace`, `Fields` and `Join` over Go's exact white-space set, plus `ToLower` and the UTF-8 byte length that Go's `len` returns.
- `Auth`: `internal/auth/auth.go`. JWT signing and verification and bcrypt are parameters (`Jwt`, `passwordMatches`), because their internals are library code. What the model needs from the JWT library is stated as the predicate `JwtSound`: a signed token has no white space, and it verifies to its subject under the same key while its claims are current.
- `Chirps`: the filter and chirp rows of `chirps.go`. `Cleaned` is the specification function, and it is used by both copies of `cleanChirp`.
- `Validate`: `validate.go`, with its own `cleanChirp` copy. That copy tests bad words with `||` instead of a map.
- `Http`: the status codes used.
- `Server`: class `ApiConfig`, which holds the tables the handlers read and write. There is one method per handler. Each handler's inputs are parameters: the decoded JSON body (`None` when decoding fails), the clock, fresh ids and random bytes, and booleans that stand for database failures.

The model follows the code where the code and the design it serves disagree:

- `handlerLogin` answers 500 for an unknown e-mail address and 401 for a wrong password, so the status shows whether the address is registered.
- `handlerLogin` ignores the requested `expires_in_seconds`. Access tokens always live one hour.
- `handlerRefresh` never checks a refresh token's expiry.
- `handlerRefresh` answers an unknown token with 401 "Couldn't find the token in the DB" and a revoked one with 401 "The refresh token has been revoked", so the message shows whether a token was ever issued.
- `handlerRevokeRefresh` does not check whether a token is already revoked. The `RevokeRefreshToken` query is taken to update the row unconditionally, so a second revoke moves the revocation time to the later request's time, and the reply is 204 again.
- The auth scheme names `Bearer` and `ApiKey` are matched case-sensitively. Section 2.1 of RFC 7235 makes them case-insensitive.
- `handlerRevokeRefresh` and `handlerUpgradeUser` call the update queries `RevokeRefreshToken` and `UpgradeUser`. The generated query code is not part of this model. Both queries return only an error, so they are taken to be plain updates, which succeed when no row matches. An unknown refresh token or user id therefore gets 204, and no table changes. Only a database error gives 400 (revoke) or 404 (upgrade).
- Both `chirps.go` and `validate.go` declare `cleanChirp` in package `main`. Go would not compile the package, so both copies are modelled and proved to compute the same thing.
- Of the handlers, `main.go` routes only create-user, create-chirp, get-all-chirps and get-chirp. Login, refresh, revoke, the Polka webhook, delete-chirp and validate-chirp are not registered. Its `apiConfig` has no `secret` or `polkaKey` field. The handlers are modelled as written in their files.

## Model

| member | source | states |
|---|---|---|
| GoStrings.TrimSpace | internal/auth/auth.go:111 | the result has no white space at either end, and it is empty exactly when the input is all white space |
| GoStrings.TrimSpacePadded | internal/auth/auth.go:111 | trimming a trimmed string surrounded by any white space gives that string back |
| GoStrings.IsSpace | internal/auth/auth.go:111 | in Latin-1, exactly tab, line feed, vertical tab, form feed, carriage return, space, NEL and NBSP are white space (the contract speaks of Latin-1 only; above it, the definition lists the rest of the Unicode White_Space set) |
| GoStrings.Fields | chirps.go:164 | every word is non-empty and contains no white space |
| GoStrings.FieldsSkipSpaces | chirps.go:164 | white space in front of a string does not change its words |
| GoStrings.FieldsSplit | chirps.go:164 | a field followed by white space or by nothing is the first word, and the words of the remainder follow it |
| GoStrings.FieldsEmpty | chirps.go:164 | a string has no words exactly when it is all white space |
| GoStrings.Join | chirps.go:171 | joining no words gives ""; otherwise the result starts with the first word |
| GoStrings.FieldsOfJoin | chirps.go:164-171 | splitting the single-space join of a list of words gives the list back |
| GoStrings.JoinSingleSpaced | chirps.go:171 | joining words with " " gives a trimmed string whose only white space is single spaces between words |
| GoStrings.ByteLen | chirps.go:138 | the byte length is between the rune count and four times it |
| GoStrings.JoinByteLen | chirps.go:171 | a single-space join takes the words' bytes plus one byte per gap |
| GoStrings.FieldsByteLen | chirps.go:164 | the words of a string, plus one separator byte between each pair, fit in the string's bytes |
| GoStrings.ToLower | chirps.go:166 | the length is kept; each upper-case ASCII letter becomes its lower-case letter, the Kelvin sign becomes 'k' and U+0130 becomes 'i'; every other character is unchanged, so no upper-case ASCII letter is left |
| GoStrings.ToLowerIdempotent | chirps.go:166 | lower-casing twice is lower-casing once |
| GoStrings.AsciiByteLen | validate.go:41 | an ASCII chirp's byte length is its character count |
| Auth.ParseCredential | internal/auth/auth.go:101-117 | missing header iff the value is empty; a format error iff the value does not start with the scheme prefix; an empty-credential error iff nothing but white space follows the prefix; otherwise the trimmed, non-empty rest |
| Auth.ParseCredentialRoundTrip | internal/auth/auth.go:101-117 | prefix, any white space, a trimmed non-empty credential, then any white space parses back to that credential |
| Auth.ParseCredentialCaseSensitive | internal/auth/auth.go:107-110 | a value that starts with a scheme name spelled differently is rejected as malformed |
| Auth.HeaderGet | internal/auth/auth.go:102 | an absent header, or one with no values, reads as ""; otherwise the first value |
| Auth.GetBearerToken | internal/auth/auth.go:101-117 | an empty header gives the missing-header error; a success means the header starts with "Bearer " and the token is non-empty and trimmed |
| Auth.GetAPIKey | internal/auth/auth.go:17-34 | the same contract for the "ApiKey " scheme |
| Auth.GetBearerTokenRoundTrip | internal/auth/auth.go:101-117 | "Bearer " followed by a trimmed non-empty token gives that token back |
| Auth.GetAPIKeyRoundTrip | internal/auth/auth.go:17-34 | "ApiKey " followed by a trimmed non-empty key gives that key back |
| Auth.GetBearerTokenMissing | internal/auth/auth.go:102-105 | the missing-header error comes exactly from a header set with no Authorization entry, no values under it, or an empty first value |
| Auth.GetBearerTokenMalformed | internal/auth/auth.go:107-110 | "bearer x", "Basic abc123" and "Bearer" without its space are malformed |
| Auth.GetBearerTokenBlank | internal/auth/auth.go:111-114 | "Bearer " followed only by white space gives the empty-credential error |
| Auth.GetBearerTokenExample | internal/auth/auth.go:111-116 | "Bearer abc123" gives "abc123" |
| Auth.GetAPIKeyFailures | internal/auth/auth.go:18-26 | a missing header is the missing-header error; "apikey k", "ApiKey" and a Bearer header are malformed |
| Auth.GetAPIKeyBlank | internal/auth/auth.go:28-31 | "ApiKey " followed only by white space gives the empty-credential error |
| Auth.HexEncode | internal/auth/auth.go:42 | the output is twice as long as the input and uses lower-case hex digits only |
| Auth.HexEncodeInjective | internal/auth/auth.go:42 | different byte strings encode to different hex strings |
| Auth.HexEncodeTrimmed | internal/auth/auth.go:42 | a hex encoding has no white space, so it survives being sent as a bearer token |
| Auth.MakeRefreshToken | internal/auth/auth.go:36-45 | fails exactly when reading random bytes fails; otherwise gives 64 lower-case hex characters |
| Auth.RefreshTokenInjective | internal/auth/auth.go:36-45 | different random keys give different refresh tokens |
| Auth.AccessClaims | internal/auth/auth.go:64-69 | issuer "chirpy", the user as subject, issued now, expiring exactly one hour later |
| Auth.MakeJWT | internal/auth/auth.go:63-76 | under `JwtSound`, a token that is produced has no white space and validates to the user at every moment of the following hour |
| Auth.ValidateJWT | internal/auth/auth.go:78-99 | under `JwtSound`, a token signed with the secret over current claims yields the claims' subject |
| Auth.AccessTokenRoundTrip | internal/auth/auth.go:63-99 | a token MakeJWT issued is accepted by ValidateJWT as the user's, for one hour from issue |
| Auth.BearerAccessToken | internal/auth/auth.go:101-117 | an access token sent as "Bearer <token>" is read back unchanged |
| Chirps.IsBadWord | chirps.go:158-167 | true exactly for "kerfuffle", "sharbert" and "fornax" |
| Chirps.CensorWord | chirps.go:165-169 | a word whose lower-case form is a bad word becomes "****"; any other word is kept as it is; a field stays a field |
| Chirps.CensorWordByteLen | chirps.go:165-169 | censoring never makes a word longer in bytes |
| Chirps.Cleaned | chirps.go:157-172 | the cleaned chirp is never longer in UTF-8 bytes than the chirp it came from |
| Chirps.CleanChirp | chirps.go:157-172 | the loop over the words computes the cleaned chirp: the words of the input, bad ones replaced, joined by single spaces |
| Chirps.CleanedFields | chirps.go:164-171 | the words of the cleaned chirp are the words of the input, each replaced by "****" when its lower-case form is bad |
| Chirps.CleanedWordAt | chirps.go:165-169 | word i of the result is "****" when word i of the input is bad, and is that word unchanged otherwise |
| Chirps.CleanedSingleSpaced | chirps.go:171 | the cleaned chirp is trimmed, and single spaces are its only white space |
| Chirps.CensorWordIdempotent | chirps.go:166-169 | censoring a censored word changes nothing |
| Chirps.CleanedIdempotent | chirps.go:157-172 | cleaning a cleaned chirp changes nothing |
| Chirps.CensorWordExamples | chirps.go:166-169 | "Kerfuffle" and "FORNAX" become "****" |
| Chirps.CensorWordKeeps | chirps.go:166-169 | "kerfuffle!" and "sharberts" are kept |
| Validate.IsBadWord | validate.go:55 | the `\|\|` chain accepts exactly the three bad words |
| Validate.BadWordTestsAgree | validate.go:55 | the `\|\|` test and the map lookup in chirps.go decide every word the same way |
| Validate.CleanChirp | validate.go:51-60 | this copy computes the same cleaned chirp as the copy in chirps.go |
| Validate.ValidateChirp | validate.go:35-48 | an undecodable body gives 400 "Invalid JSON"; a body over 140 bytes gives 400 "Chirp is too long"; otherwise 200 with the cleaned body |
| Server.ApiConfig.UserByEmail | users.go:178-182 | the user found has that e-mail; none is found only when no user has it; with unique e-mails, the one user who has it is found |
| Server.ApiConfig.AccessUser | chirps.go:121-131 | no bearer token means no user; otherwise the user is whatever ValidateJWT makes of the token |
| Server.ApiConfig.AccessUserOfIssued | chirps.go:121-131 | under `JwtSound`, a bearer header with an access token issued for a user authenticates that user for the token's hour |
| Server.ApiConfig.DeleteChirp | chirps.go:24-62 | an unparseable id or a missing or invalid access token gives 500; an unknown chirp gives 404 and another user's chirp 403; a failed delete gives 500; the owner's delete gives 204 and removes exactly that chirp; no other path changes any table |
| Server.ApiConfig.GetAllChirps | chirps.go:90-111 | a failed query gives 500; otherwise 200 with one chirp per row, in row order, carrying the row's fields |
| Server.ApiConfig.CreateChirp | chirps.go:113-155 | 401 without an access token, 400 for a bad body or one over 140 bytes, 500 when the insert fails; otherwise 201, and the table gains exactly the new row with the cleaned body, owned by the token's user; every stored chirp body stays within 140 bytes |
| Server.ApiConfig.UpgradeUser | users.go:22-62 | 401 unless the ApiKey credential equals the Polka key; an undecodable body gives 500; other events give 204 and change nothing; a missing user id gives 500 and a failed update 404; an unknown user gives 204 and changes nothing; otherwise 204, and only that user's red flag is set |
| Server.ApiConfig.Revoke | users.go:116-130 | 400 without a bearer token or when the update fails; an unknown token gives 204 and changes nothing; otherwise 204, and only that token's revocation time is set to now |
| Server.ApiConfig.Refresh | users.go:132-157 | 401 for a missing, unknown or revoked token; otherwise 500 when signing fails and 200 with a new access token for the token's owner when it succeeds, even after the token's expiry |
| Server.ApiConfig.RefreshCorrected | users.go:140-156 | 401 with the as-written messages for a missing, unknown or revoked token, and 401 "expired" for an expired one; 200 exactly when the token is known, unrevoked and not yet expired and signing succeeds, with an access token for its owner |
| Server.ApiConfig.CheckLogin | users.go:169-199 | the handler's checks run in sequence and compute the login decision: bad JSON 400, lookup 500, wrong password 401, token failures 500, or a grant |
| Server.ApiConfig.Login | users.go:159-229 | a failed check gives its one reply; a successful check with a failed insert gives the 500 reply and then the 200 login body; otherwise one 200 reply, and the refresh token is stored with a 60-day lifetime |
| Server.ApiConfig.LoginCorrected | users.go:201-208 | every path gives exactly one reply, and it is 200 exactly when a refresh token was stored |
| Server.ApiConfig.LoginCheckGrant | users.go:178-199 | a grant belongs to the user with that e-mail and password, carries a signed access token, and carries the fresh hex refresh token |
| Server.ApiConfig.LoginIgnoresExpiresIn | users.go:174-176 | the login decision is the same whatever expires_in_seconds the client sends |
| Server.ApiConfig.LoginDistinguishesUnknownEmail | users.go:178-187 | an unknown e-mail gives 500 while a wrong password gives 401 |
| Server.ApiConfig.LoginRevokeRefresh | users.go:116-229 | on the handlers as written: after a login, the stored refresh token buys an access token at any later time; after it is revoked, the same exchange gives 401 "revoked" |
| Server.ApiConfig.LoginRevokeRefreshCorrected | users.go:116-229 | the same life cycle on the corrected login and refresh handlers, within the token's 60-day lifetime |

## Left out

- Password hashing (bcrypt) is the `passwordMatches` parameter. `HashPassword` and `CheckPasswordHash` are library calls whose internals are not modelled.
- JWT signing and verification are the `Jwt` parameter, including the HS256 check, the rejection of expired tokens, and the parsing of the subject as a UUID. The model fixes only the claims the core puts in: issuer "chirpy", the user as subject, and a one-hour lifetime.
- The clock, the random bytes and newly generated UUIDs are inputs. Time is whole seconds. `MakeJWT`'s two clock reads and `handlerLogin`'s own `time.Now()` for the refresh token's expiry (users.go:204) are one `now`.
- Database queries are map operations on the class's tables. The booleans on each handler stand for failing queries. The rows `GetAllChirps` returns, and their order, are an input (the query's result). They are not tied to the `chirps` table.
- `Valid()`'s `EmailsUnique` stands for a UNIQUE constraint on `users.email` in the database schema. The schema is not part of this model. `CheckLogin` relies on it to pick the one user with an e-mail address.
- JSON decoding and encoding are not modelled. A decoded body is an `Option` value and replies are `Payload` values. The message `handlerCreateChirp` builds from the database error (chirps.go:150) is left out, because the model has no error text.
- Error values from `internal/auth` are three kinds, `CredentialError`, without their Go message strings.
- Strings are sequences of Unicode scalar values. Header values and bodies holding bytes that are not valid UTF-8, which Go keeps as they are, cannot be represented.
- Go's canonicalization of header names is not modelled. Headers are read under `Authorization` only.
- `strings.ToLower` is modelled for ASCII, the Kelvin sign and U+0130. These are the only characters whose lower case can turn a word into an ASCII bad word, so the bad-word test is exact. Other characters keep their case in the model.
- `handlerGetChirp`, `handlerCreateUser` and `handlerUpdateUser` (lookups and plain table writes), `metrics.go`, `reset.go`, `utils/utils.go` and the routing in `main.go` are outside the modelled core.
- Concurrency between requests is not modelled. Each handler runs alone on the tables.
- Auth.MakeJWT, Auth.ValidateJWT: their round-trip and no-white-space promises hold under `JwtSound`, which is an assumption about the JWT library, not something proved from its code.
- Server.ApiConfig.DeleteChirp: its 500 replies (token lookup, chirp lookup, delete) are stated by status and table effect, not by message text.
- Server.ApiConfig.CreateChirp: the 401 for a missing or invalid token and the 500 for a failed insert are stated by status and table effect, not by message text.
- Server.ApiConfig.Refresh: the 500 reply for a failed signing is stated by status only.
- Server.ApiConfig.RefreshCorrected: for a known, unrevoked, unexpired token, the contract names the two possible statuses. The exact reply comes from the iff clause.

## Findings

| source | as written | input that shows it | evidently intended | confidence | as-written member | corrected member |
|---|---|---|---|---|---|---|
| users.go:201-208 | when `CreateRefreshToken` fails, the handler writes the 500 error but does not return, and then writes the 200 login body as well | a login with a correct password whose refresh-token insert fails (a database error, or a token already stored) | return after the 500 reply, so the client gets one answer and no tokens | high, not executed | Server.ApiConfig.Login | Server.ApiConfig.LoginCorrected |
| users.go:140-156 | the refresh handler checks that the token exists and is not revoked, but never compares `ExpiresAt` with the clock | a stored, unrevoked refresh token whose `expiresAt` is at or before now is exchanged with 200 | refuse tokens past their 60-day expiry with 401 | high, not executed | Server.ApiConfig.Refresh | Server.ApiConfig.RefreshCorrected |
