# RoomieSync-Web authentication and validation routines, in Dafny

This project models the server-side routines of RoomieSync-Web, a SvelteKit
application for shared households, that guard accounts and households:

- the password-reset rate limiter (an in-memory map from lower-cased email
  to attempt timestamps, pruned to a one-hour sliding window) and the
  lifecycle of password-reset tokens;
- email-verification tokens, which mark a user verified and are consumed
  by their first use;
- sessions: the random `id.secret` token, the SHA-256 digest of the secret
  stored as lower-case hex, validation with a constant-time comparison and
  an expiry check, deletion, and the session cookies;
- invite-link signatures: the choice of HMAC secret, the signed message
  `inviteId:lower(email)`, the URL-safe base64 of section 5 of RFC 4648 and
  the constant-time verification;
- the home page's `createHousehold` action (name validation, the two
  inserts, the try/catch outcome) and its `load`.

Database tables are maps keyed by their `id` column, shaped after the
records of `src/lib/server/db/schema.ts`. A `limit 1` lookup may return any
matching row. An insert whose `id` is already taken fails. The clock
(`now`, in milliseconds), the random bytes and the generated ids are
parameters. SHA-256 and HMAC-SHA-256 are deterministic functions, passed
in, that return 32 bytes.

State that the source updates in place is held in classes:
`PasswordReset.RateLimiter`, `PasswordReset.ResetTokenStore`,
`EmailVerification.VerificationStore`, `Sessions.SessionStore` and
`HouseholdPage.HouseholdTables`. Each method states its new state through
functions of the old one, and the lemmas are proved about those functions.
Where the source reads one row with `limit 1`, the method's contract is
relational instead: some matching row is picked, and the new state and the
answer are stated in terms of that row.
The loops of the source (the token generators, the two constant-time
comparisons) are methods with loop invariants, proved against a
specification function.

Modules:
- `Wrappers`: `Option`, `Result`.
- `Text`: JavaScript's `toLowerCase`, `trim` and `length` in UTF-16 code units, its whitespace set, and `|`, `^` and `>>` on non-negative numbers.
- `Hex`: the hex encode and decode pipelines.
- `Base64`: RFC 4648 encoding and the URL-safe rewrite.
- `Schema`: row shapes.
- `TokenTables`: what the two token modules share.
- One module per core file: `PasswordReset`, `EmailVerification`, `Sessions`, `InviteSignature`, `HouseholdPage`.

The create action is meant to redirect to the new household. As written,
it answers `fail(500)` even when both inserts succeed. The model follows the
code and adds a corrected action beside it (see Findings).

## Model

| member | source | states |
|---|---|---|
| Text.ToLowerCase | src/lib/server/password-reset.ts:41 | The key is the address with every upper-case letter lowered; nothing else changes and the length is kept |
| Text.LowerCaseIdempotent | src/lib/server/password-reset.ts:59 | Lowering an already lowered address changes nothing, so the key `recordAttempt` uses is stable |
| Text.Trim | src/routes/+page.server.ts:44 | `trim()` yields the slice of the input left after cutting whitespace on both ends: empty exactly when the input is whitespace only, otherwise starting and ending with a non-whitespace character |
| Text.TrimOfPadded | src/routes/+page.server.ts:50 | Whitespace around a name that starts and ends with a non-whitespace character is exactly what `trim()` removes |
| Text.TrimIdempotent | src/routes/+page.server.ts:64 | The inserted name `name.trim()` is its own trim |
| Text.TrimStart | src/lib/server/session.ts:97 | `parseInt` skips a prefix made only of whitespace and resumes at a non-whitespace character |
| Text.Utf16Length | src/routes/+page.server.ts:44-50 | `length` counts code units: between one and two per character, zero only for the empty string, one per character when all are in the Basic Multilingual Plane |
| Text.Utf16LengthAstral | src/routes/+page.server.ts:50 | A string of characters outside the Basic Multilingual Plane has twice as many code units as characters |
| Text.BitXor | src/lib/server/session.ts:43 | `a ^ b` is 0 exactly when `a == b` |
| Text.BitOr | src/lib/server/session.ts:43 | The bitwise OR is 0 exactly when both operands are 0, so the accumulator stays 0 only while every pair agreed |
| Text.ShiftRight | src/lib/server/session.ts:26 | `a >> n` never exceeds `a`, and a shift by at least one position at least halves it |
| Text.ShiftRightByte | src/lib/server/session.ts:26 | For any byte, `b >> 3` is `b / 8`, which is below 32 |
| Hex.ByteToHex | src/lib/server/session.ts:57 | `b.toString(16).padStart(2, '0')` is two lower-case digits, the high nibble first |
| Hex.HexEncode | src/lib/server/session.ts:56-58 | The joined encoding has two characters per byte, the pair at position `2i` being byte `i`'s digits |
| Hex.Chunks | src/lib/server/session.ts:97 | `match(/.{1,2}/g)` yields pieces of one or two characters, none of them a line terminator |
| Hex.HexDecode | src/lib/server/session.ts:95-98 | Decoding throws exactly when `match` finds nothing; otherwise it yields one byte per chunk |
| Hex.HexDigitValue | src/lib/server/session.ts:97 | A base-16 digit, in either case, has a value below 16; any other character has none |
| Hex.ParseIntRadix16 | src/lib/server/session.ts:97 | `parseInt(s, 16)` is `NaN` for a blank string and for one whose first non-blank character is neither a sign nor a digit; a negative result needs a leading `-` |
| Hex.ParseMagnitude | src/lib/server/session.ts:97 | Nothing is read unless the first character is a base-16 digit |
| Hex.ToUint8 | src/lib/server/session.ts:96-97 | Storing into a `Uint8Array` turns `NaN` into 0 and any other number into the byte congruent to it modulo 256, itself when it already fits |
| Hex.DecodeChunk | src/lib/server/session.ts:96-97 | A chunk of digits becomes the number they denote modulo 256; a blank chunk becomes 0 |
| Hex.ParseDigits | src/lib/server/session.ts:97 | `parseInt(d, 16)` of a string of hex digits is the number they denote |
| Hex.DecodePair | src/lib/server/session.ts:96-97 | Two digits `hi`, `lo` decode to the byte `16 * hi + lo` |
| Hex.ParseByteToHex | src/lib/server/session.ts:57-97 | The two digits written for a byte parse back, stored in a `Uint8Array`, to that byte |
| Hex.ChunksOfHexEncode | src/lib/server/session.ts:95-98 | Chunking an encoding returns the two-digit groups of the bytes, in order |
| Hex.HexRoundTrip | src/lib/server/session.ts:56-58 | Decoding the stored hex of a digest gives the digest back; only the empty array fails to round-trip |
| Base64.Encode | src/lib/server/invite-signature.ts:39 | `btoa` gives `4 * ceil(n / 3)` characters of the standard alphabet of section 4 of RFC 4648, followed by exactly the `=` padding the length calls for |
| Base64.ReplaceAll | src/lib/server/invite-signature.ts:40-41 | A global replace substitutes every occurrence of one character and keeps every other character in place |
| Base64.StripTrailing | src/lib/server/invite-signature.ts:42 | `replace(/=+$/, '')` removes the whole trailing run of `=` and nothing before it |
| Base64.ToBase64Url | src/lib/server/invite-signature.ts:39-42 | The URL-safe form contains no `+` or `/` and does not end in `=` |
| Base64.UrlEncodingOf32Bytes | src/lib/server/invite-signature.ts:35-42 | A 32-byte MAC encodes to 44 characters with one `=`; the URL-safe signature is 43 characters of the alphabet of section 5 of RFC 4648 |
| TokenTables.TokenFromBytes | src/lib/server/password-reset.ts:15-24 | One character per random byte, each from the 56-character alphabet |
| TokenTables.GenerateSecureToken | src/lib/server/password-reset.ts:15-24 | The loop builds exactly `alphabet[b % 56]` for each of the 32 bytes, 32 characters in all |
| TokenTables.HashToken | src/lib/server/password-reset.ts:28-35 | The stored hash is 64 hex characters that decode back to the token's SHA-256 digest |
| TokenTables.WithoutUser | src/lib/server/password-reset.ts:122-124 | Deleting by user leaves none of that user's rows and keeps every other row unchanged |
| TokenTables.Unexpired | src/lib/server/password-reset.ts:129-132 | Cleanup keeps exactly the rows whose expiry is not strictly before `now`, unchanged |
| TokenTables.ReplacedLeavesOneRow | src/lib/server/password-reset.ts:71-88 | After a create the user owns exactly one row, the new one; other users' rows are kept |
| TokenTables.ReplacedIsFoundByHash | src/lib/server/password-reset.ts:97-101 | When no kept row shares the new row's hash, a lookup by that hash finds only the new row |
| TokenTables.BoundaryRowSurvivesCleanup | src/lib/server/password-reset.ts:110 | A row expiring exactly at `now` survives cleanup (`<`) yet fails validation (`<=`) |
| TokenTables.CleanupKeepsExactlyUnexpired | src/lib/server/password-reset.ts:129-132 | A row survives cleanup if and only if its expiry is at or after `now` |
| PasswordReset.InWindow | src/lib/server/password-reset.ts:47 | The filter keeps exactly the timestamps later than the window start |
| PasswordReset.Pruned | src/lib/server/password-reset.ts:46-50 | After a check the lower-cased key is present and every other key is unchanged |
| PasswordReset.Recorded | src/lib/server/password-reset.ts:58-65 | After a record the lower-cased key is present and every other key is unchanged |
| PasswordReset.RateLimiter.constructor | src/lib/server/password-reset.ts:12 | The map starts empty |
| PasswordReset.RateLimiter.CheckRateLimit | src/lib/server/password-reset.ts:40-53 | The caller's list becomes its timestamps inside the last hour, in order, and the answer is whether fewer than three remain |
| PasswordReset.RateLimiter.RecordAttempt | src/lib/server/password-reset.ts:58-65 | `now` is appended to the lower-cased address's list; other keys are unchanged |
| PasswordReset.InWindowAppend | src/lib/server/password-reset.ts:47 | Filtering a concatenation filters each part and keeps their order |
| PasswordReset.InWindowIdempotent | src/lib/server/password-reset.ts:47-50 | Filtering a list already pruned to the window changes nothing |
| PasswordReset.InWindowCounts | src/lib/server/password-reset.ts:47 | The pruned list has one entry per stored timestamp after the window start |
| PasswordReset.Admits | src/lib/server/password-reset.ts:46-52 | A request is admitted if and only if fewer than three stored timestamps are later than `now - 3600000` |
| PasswordReset.CheckRateLimitRepeatable | src/lib/server/password-reset.ts:40-53 | Checking adds no attempt: a second check at the same time gives the same answer and the same state |
| PasswordReset.CaseInsensitiveKey | src/lib/server/password-reset.ts:41 | Addresses differing only in letter case share one attempt list for checking and recording |
| PasswordReset.AdmittedAttemptKeepsLimit | src/lib/server/password-reset.ts:58-65 | Check-then-record of an admitted request leaves at most three attempts in the window, the new one last |
| PasswordReset.ResetTokenStore.constructor | src/lib/server/db/schema.ts:126-133 | The token table starts empty |
| PasswordReset.ResetTokenStore.CreatePasswordResetToken | src/lib/server/password-reset.ts:71-88 | The user's old rows are deleted; then the token for the bytes is returned and its hash stored, expiring 15 minutes after `now`, unless the id is taken |
| PasswordReset.ResetTokenStore.ValidatePasswordResetToken | src/lib/server/password-reset.ts:94-117 | No row with the hash gives null and no change. Otherwise a matching row is picked: if `expiresAt <= now` it is deleted and null is returned, else its user is returned and nothing changes |
| PasswordReset.ResetTokenStore.DeleteUserPasswordResetTokens | src/lib/server/password-reset.ts:122-124 | Exactly the user's rows are deleted |
| PasswordReset.ResetTokenStore.CleanupExpiredTokens | src/lib/server/password-reset.ts:129-132 | Exactly the rows expiring strictly before `now` are deleted |
| PasswordReset.ResetTokenLifecycle | src/lib/server/password-reset.ts:71-117 | A fresh token validates to its user before `now + 15 min` and is refused from then on, when the user's row is gone |
| EmailVerification.MarkVerified | src/lib/server/email-verification.ts:83-86 | The update sets `emailVerified` and `updatedAt` of that one user and leaves everything else unchanged |
| EmailVerification.VerificationStore.constructor | src/lib/server/db/schema.ts:140-147 | The token table starts empty beside the given users |
| EmailVerification.VerificationStore.CreateEmailVerificationToken | src/lib/server/email-verification.ts:35-52 | Old rows of the user are deleted, the new token's hash is stored expiring 24 hours after `now`, and users are untouched |
| EmailVerification.VerificationStore.VerifyEmail | src/lib/server/email-verification.ts:58-94 | No match gives false and no change. Otherwise one matching row is deleted in both cases, and the answer is true, with the user marked verified, exactly when it had not expired. The matching rows drop by one |
| EmailVerification.VerificationStore.DeleteUserEmailVerificationTokens | src/lib/server/email-verification.ts:99-101 | Exactly the user's tokens are deleted |
| EmailVerification.VerificationStore.CleanupExpiredEmailVerificationTokens | src/lib/server/email-verification.ts:106-109 | Exactly the tokens expiring strictly before `now` are deleted |
| EmailVerification.VerifyTwice | src/lib/server/email-verification.ts:58-94 | A token works at most once: a second use is refused and the token is gone |
| Sessions.RandomStringFromBytes | src/lib/server/session.ts:19-29 | One character per byte, each from the 32-character alphabet and never a `.` |
| Sessions.GenerateSecureRandomString | src/lib/server/session.ts:19-29 | The loop builds exactly `alphabet[b >> 3]` for each of the 24 bytes |
| Sessions.ConstantTimeEqual | src/lib/server/session.ts:39-46 | The result is true if and only if both arrays are equal: same length and same bytes |
| Sessions.SplitDot | src/lib/server/session.ts:73 | `split('.')` yields at least one piece, and no piece contains a dot |
| Sessions.FormatToken | src/lib/server/session.ts:68 | The token is the id, a dot just after it, then the secret |
| Sessions.SplitDotHead | src/lib/server/session.ts:73 | The first piece of `split('.')` is the whole string when there is no dot, otherwise the text before the first dot, the rest splitting into the other pieces |
| Sessions.ParseToken | src/lib/server/session.ts:73-76 | An accepted token yields two non-empty, dot-free pieces, and the token is exactly those pieces joined by a dot, followed by nothing or by a further dot |
| Sessions.ParseFormatToken | src/lib/server/session.ts:68-76 | A token formatted from non-empty, dot-free pieces parses back to them, whatever follows a further dot |
| Sessions.ParseRefusesMissingPiece | src/lib/server/session.ts:73-76 | A token with no dot, or an empty first or second piece, is refused |
| Sessions.CreateSessionCookie | src/lib/server/session.ts:131-147 | An HTTP-only cookie on path `/` carrying the token, whose `maxAge` in seconds equals a session row's lifetime in milliseconds |
| Sessions.CreateBlankSessionCookie | src/lib/server/session.ts:149-165 | The session cookie for any token with the value emptied and `maxAge` 0, so it overwrites and expires it |
| Sessions.WithoutUserSessions | src/lib/server/session.ts:126-128 | Deleting by user removes exactly that user's sessions and keeps the others unchanged |
| Sessions.SessionStore.constructor | src/lib/server/db/schema.ts:16-22 | The session table starts empty |
| Sessions.SessionStore.CreateSession | src/lib/server/session.ts:49-69 | Returns `id.secret` and stores the row with the secret digest's hex and `now + 7 days`, unless the id is taken |
| Sessions.SessionStore.ValidateSessionToken | src/lib/server/session.ts:72-118 | A session is returned only for a parsable token whose row and user exist, whose secret's digest equals the stored one, and whose `expiresAt > now`; a matching expired session is deleted; an unreadable stored hash throws |
| Sessions.SessionStore.DeleteSession | src/lib/server/session.ts:121-123 | Exactly that session is deleted |
| Sessions.SessionStore.DeleteUserSessions | src/lib/server/session.ts:126-128 | Exactly the user's sessions are deleted |
| Sessions.SessionLifecycle | src/lib/server/session.ts:49-118 | A new session validates before `now + 7 days`; after that it is refused and its row deleted |
| InviteSignature.GetHmacSecret | src/lib/server/invite-signature.ts:4-14 | `INVITE_HMAC_SECRET` if set and non-empty, else `invite-hmac:` + `TURSO_AUTH_TOKEN` if that is set and non-empty, else an error; never empty |
| InviteSignature.SignedMessage | src/lib/server/invite-signature.ts:22 | The message is the invite id, a colon, then as many characters as the address, none of them upper-case |
| InviteSignature.CreateInviteSignature | src/lib/server/invite-signature.ts:20-43 | Fails exactly when no secret is configured; otherwise 43 URL-safe characters |
| InviteSignature.SignatureIgnoresEmailCase | src/lib/server/invite-signature.ts:22 | Addresses differing only in letter case get identical signatures |
| InviteSignature.VerifyInviteSignature | src/lib/server/invite-signature.ts:50-68 | True exactly when a signature can be created and equals the given one; false without a secret or for any length other than 43 |
| InviteSignature.CharCodesEqual | src/lib/server/invite-signature.ts:57-64 | The length check and the OR of XORs of the character codes give true exactly for equal strings |
| InviteSignature.SignThenVerify | src/lib/server/invite-signature.ts:20-68 | With a secret configured, a signature just created verifies for the same invite and address |
| HouseholdPage.ValidateName | src/routes/+page.server.ts:40-54 | Accepts exactly strings whose trim is 1 to 100 UTF-16 code units long, returning the trim; missing, non-string or whitespace-only names get "required", longer ones "less than 100 characters" |
| HouseholdPage.PaddedName | src/routes/+page.server.ts:44-54 | Between whitespace, a name is accepted as itself when at most 100 code units long and refused as too long otherwise |
| HouseholdPage.AstralNameRefused | src/routes/+page.server.ts:50-54 | 51 characters outside the Basic Multilingual Plane (51 emoji) are refused as too long, though fewer than 100 characters |
| HouseholdPage.Load | src/routes/+page.server.ts:8-32 | Signed out, the list is empty. Signed in, it holds exactly one entry per membership of the user whose household exists: that household's fields with the membership's role |
| HouseholdPage.HouseholdTables.constructor | src/lib/server/db/schema.ts:26-54 | Both tables start empty |
| HouseholdPage.HouseholdTables.CreateHousehold | src/routes/+page.server.ts:35-87 | Signed out, a redirect to `/login` and no insert; an invalid name, its 400 and no insert; otherwise the inserts the database accepts and always `fail(500)` |
| HouseholdPage.HouseholdTables.InsertBoth | src/routes/+page.server.ts:60-80 | The household row with the trimmed name, creator and timestamps `now`, then the creator as admin joined at `now`; stops at the first failing insert; throws the redirect after both |
| HouseholdPage.HouseholdTables.CreateHouseholdCorrected | src/routes/+page.server.ts:35-87 | As the action, but both inserts succeeding redirect to `/household/<id>` and only a database error gives `fail(500)` |
| HouseholdPage.CreatedHouseholdIsListed | src/routes/+page.server.ts:14-27 | After both inserts the new household is on its creator's list, as admin |
| HouseholdPage.CreatedButReportedAsFailure | src/routes/+page.server.ts:79-86 | A valid request with no database error inserts and lists the household, yet answers `fail(500)`, where the corrected action redirects |

## Left out

- SHA-256, HMAC-SHA-256, `crypto.getRandomValues` and `randomUUID` are parameters: digests as functions returning 32 bytes, random bytes and ids as arguments. Nothing is claimed about their quality.
- The timing resistance of both constant-time comparisons; only their results are modelled.
- The modulo bias of `b % 56`.
- `Date.now()` and `new Date()` are the parameter `now`, in milliseconds. The two clock readings of a token create (`expiresAt` and `createdAt`) use the same `now`. The database's storage of timestamps in whole seconds is not modelled.
- Drizzle SQL is replaced by maps keyed by `id`. Joins are map lookups, and foreign-key and cascade rules are not modelled. An insert fails only on a taken `id`, or through the explicit fault parameter of the household action.
- Text.ToLowerCase: lowers ASCII letters only, not the full Unicode case mapping of `toLowerCase`.
- Strings are sequences of Unicode scalar values, so a lone surrogate cannot occur. Lengths are counted in UTF-16 code units where the source compares them (the household name). The signature comparison and `split('.')` work on characters; on the URL-safe signatures and the ASCII session tokens they give the same results as on code units. The UTF-8 encoding before hashing is inside the digest functions.
- The `secure` cookie attribute, which depends on `NODE_ENV`.
- HouseholdPage.Load: returns a set of summaries rather than the ordered list of the query, so duplicate rows and row order are not modelled.
- The `console.error` logging in the household action's catch.
- Email templates and the email client, the request hooks and the type declarations (`src/lib/server/email/templates.ts`, `src/lib/server/email/index.ts`, `src/hooks.server.ts`, `src/app.d.ts`) are not part of this model.
- The expense pages and any balance computation are not part of this model.

## Findings

| source | as written | input that shows it | evidently intended | confidence | as-written member | corrected member |
|---|---|---|---|---|---|---|
| src/routes/+page.server.ts:79-86 | `throw redirect(302, ...)` sits inside the `try`, so the `catch` turns it into `fail(500, "Failed to create household...")` | A signed-in user, the name `Flat`, both inserts succeeding (`HouseholdPage.CreatedButReportedAsFailure`): the household and the admin membership are stored and listed, and the answer is `fail(500)` | Redirect to `/household/<id>` after both inserts; `fail(500)` only when an insert throws | high; not executed | HouseholdPage.HouseholdTables.CreateHousehold | HouseholdPage.HouseholdTables.CreateHouseholdCorrected |
