# Account verification in psychiki_back, modelled in Dafny

This project models the account-verification state machine of the psychiki_back backend
(`routes/auth.js`). An account is either *pending*, holding a six-digit code and the instant
that code expires, or *verified*, holding neither. Four HTTP handlers drive it:

- `POST /register` creates a pending account, or re-arms a pending one with a new code, a new
  expiry and a new password hash.
- `POST /verify-otp` compares the submitted code and the expiry, then marks the account verified,
  clears the code and returns a session token.
- `POST /login` re-issues a code to a pending account (403), or checks the password of a verified
  one and returns a session token.
- `GET /me` returns the authenticated account's document without its password.

`generateOTP` renders `100000 + r` in decimal, where `r` is the random draw in [0, 900000).

## Layout

- `wrappers.dfy` (`Wrappers`): `Option`, for fields that may be `undefined`.
- `otp.dfy` (`Otp`): decimal rendering and parsing, and `GenerateOtp`. The lemmas show that the
  codes are exactly the six-digit strings with no leading zero, one code per draw.
- `password.dfy` (`PasswordGuard`): a stand-in for bcrypt's `hash` and `compare`.
- `session.dfy` (`Session`): the signed token, carrying `{ id, username }`, its issue instant
  `iat` in seconds, and `exp = iat + 604800` (seven days).
- `accounts.dfy` (`Accounts`): the `User` document, and the store: documents in natural order,
  the next fresh id, and the log of every `sendEmail` call. Also `findOne` as "first match",
  and the store invariant: each account is pending or verified, and ids, emails and usernames
  are unique.
- `handlers.dfy` (`Handlers`): each handler as a pure transition from the old store and the
  request to a `Step(newStore, response)`. Response statuses, messages and body fields follow
  the source.
- `service.dfy` (`Service`): class `AuthService`, which holds the store in fields. Its handler
  methods update the matched record field by field, as the source does, and return early on
  each guard. Each method is proved to produce exactly its `Handlers` transition and to keep
  the invariant.
- `properties.dfy` (`Properties`): lemmas about the transitions.

Where the code departs from the intended account life cycle, the model follows the code:

- `/verify-otp` has no "already verified" check (see Findings).
- A code is still accepted at the exact instant it expires, because the test is a strict `<`.
- A verified duplicate at registration gets 400 "User already exists", not a separate conflict status.

External inputs are parameters:

- The clock is `now`, in milliseconds.
- `Math.random` is the integer draw `r`.
- The bcrypt salt is `salt`.
- The delivery result of `sendEmail` is `sent`.
- The authenticated id for `/me` is `id`.

## Model

| member | source | states |
|---|---|---|
| Otp.GenerateOtp | routes/auth.js:50 | the code is six decimal digits, the first not zero, and denotes 100000 + r |
| Otp.GenerateOtpCovers | routes/auth.js:50 | every six-digit code without a leading zero is produced by exactly one draw in [0, 900000) |
| Otp.ParseToDecimal | routes/auth.js:50 | reading the decimal rendering back gives the number rendered |
| Otp.ToDecimalParse | routes/auth.js:50 | every canonical digit string is the rendering of the number it denotes |
| Accounts.FindOne | routes/auth.js:58 | the lookup gives the first document matching the filter, or none exactly when no document matches |
| Accounts.FindByEmailUnique | routes/auth.js:92 | in a consistent store, looking an account up by its own email finds that account |
| PasswordGuard.CompareHash | routes/auth.js:127 | a digest matches exactly the password it was made from, whatever the salt |
| Session.IssueToken | routes/auth.js:103 | the token carries id and username, its issue second covers now, and it expires seven days after issue, to within a second |
| Handlers.Me | routes/auth.js:138-147 | 404 "User not found" exactly when no document has the id; otherwise 200 with that document's fields minus the password |
| Handlers.Register | routes/auth.js:53-86 | the registration transition: answers only 400 (store untouched) or 201; on 201 exactly one delivery is logged, at most one record is added, and no existing record changes id, email or username; the Properties.Register* rows fix the rest |
| Handlers.VerifyOtp | routes/auth.js:89-109 | the verification transition as written: answers only 200, 400 or 404; every non-200 answer leaves the store untouched; it never adds a record, an id or a delivery; the Properties.VerifyOtp* rows fix the rest |
| Handlers.VerifyOtpGuarded | routes/auth.js:94-96 | the verification transition with the missing isVerified guard: a success is exactly the as-written success, failures change nothing, and a verified record is never touched |
| Handlers.Login | routes/auth.js:112-136 | the login transition: answers only 200, 400 or 403; only the 403 re-issue changes the store; no record is added and no isVerified flag changes; the Properties.Login* rows fix the rest |
| Properties.RegisterPreservesInvariant | routes/auth.js:53-86 | registration keeps every account pending or verified, and keeps ids, emails and usernames unique |
| Properties.VerifyOtpPreservesInvariant | routes/auth.js:89-109 | verification keeps the store consistent |
| Properties.LoginPreservesInvariant | routes/auth.js:112-136 | login keeps the store consistent |
| Properties.VerifyOtpGuardedPreservesInvariant | routes/auth.js:94-96 | the guarded verification keeps the store consistent |
| Properties.RegisterOutcome | routes/auth.js:56-80 | 400, with the store and outbox unchanged, exactly when a field is missing or the matched account is verified; otherwise 201 with isVerified false and the request's email |
| Properties.RegisterIgnoresDelivery | routes/auth.js:74-80 | the delivery outcome affects only the message text: same store, same status |
| Properties.RegisterRearmsPending | routes/auth.js:64-68 | re-registering a pending account overwrites only code, expiry and password hash; username, email, id and isVerified stay; no record is added; the code goes to the request's email |
| Properties.RegisterCreatesAccount | routes/auth.js:69-70 | a pair matching no account appends exactly one pending record with a fresh id, the hash, and expiry now + 600000 |
| Properties.VerifyOtpChecksInOrder | routes/auth.js:92-96 | unknown email gives 404; else a code unequal to the stored one gives "Invalid code"; else an expiry before now gives "Code expired"; no failure changes the store |
| Properties.VerifyOtpSuccess | routes/auth.js:98-104 | success marks only the matched account verified, clears code and expiry, and returns a token with id, username and email |
| Properties.VerifyOtpReplayFails | routes/auth.js:95 | a code once accepted is refused with "Invalid code" afterwards |
| Properties.VerifyOtpExpiryIsStrict | routes/auth.js:96 | a code is accepted at its expiry instant and refused as expired one millisecond later |
| Properties.LoginInvalidCredentials | routes/auth.js:115-128 | unknown email and wrong password on a verified account give the identical 400 "Invalid credentials" and change nothing; no other case gives 400 |
| Properties.LoginPendingReissues | routes/auth.js:118-124 | login on a pending account ignores the password, stores a fresh code expiring at now + 600000, mails it, answers 403 with requiresVerification and the email; the previous code then fails |
| Properties.LoginSuccess | routes/auth.js:127-131 | 200 exactly for a verified account with a matching password, with a token for it and no change to the store |
| Properties.RegisterThenVerify | routes/auth.js:53-104 | registering a new pair and presenting the mailed code within ten minutes verifies the account; a second attempt is "Invalid code" |
| Properties.RegisterInvalidatesOldCode | routes/auth.js:64-67 | re-registration invalidates the code the pending account held, unless the new draw repeats it |
| Properties.MeAfterVerify | routes/auth.js:138-142 | after a successful verification, /me for that id shows the account verified with no code and no expiry |
| Properties.VerifyOtpAcceptsMissingCode | routes/auth.js:92-96 | as written, a request with no code naming a verified account's email is answered with a session token |
| Properties.VerifyOtpGuardedRequiresCode | routes/auth.js:94-96 | with the guard, a verified account is refused, and every success presents exactly the pending code of an unverified, unexpired account |
| Service.AuthService.Register | routes/auth.js:53-86 | the method's new store and response are exactly the registration transition's, and the store stays consistent |
| Service.AuthService.VerifyOtp | routes/auth.js:89-109 | the method's new store and response are exactly the verification transition's, and the store stays consistent |
| Service.AuthService.VerifyOtpGuarded | routes/auth.js:94-96 | the method behaves as the guarded verification transition, and the store stays consistent |
| Service.AuthService.Login | routes/auth.js:112-136 | the method's new store and response are exactly the login transition's, and the store stays consistent |
| Service.AuthService.Me | routes/auth.js:138-147 | the method answers as the /me lookup and changes nothing |

## Left out

- `sendEmail` internals (routes/auth.js:9-48): the HTTP call to the mail provider, the API-key lookup and console logging are network and process I/O. The model records each call's (to, subject, code) and takes its result as the input `sent`.
- bcrypt (routes/auth.js:61-62, 127) is a foreign library. A digest is a stand-in value, and `Compare` accepts exactly the password the digest was made from. bcrypt's truncation of passwords to 72 bytes and its salt format are not modelled.
- JWT signing (routes/auth.js:103, 130) is a foreign library. The token is the claims it carries. The secret and its `'dev_secret'` fallback are not modelled.
- `Math.random` floating point (routes/auth.js:50): replaced by the integer draw `r`.
- The `User` schema and the `auth` middleware are not part of this model. The store is a sequence in natural order with sequential ids. A new document's `isVerified` is taken to default to false. A field cleared to `undefined` is taken to read back as absent. `/me` takes an already authenticated id.
- Request bodies: fields are strings or absent. JSON `null`, numbers and objects are not modelled. In `/verify-otp` and `/login` the email is taken to be present, and in `/login` so is the password. What the store's query and bcrypt do with an absent value is outside this model.
- The 500 "Server error" paths (store, hashing or signing failures) are collaborator failures and are not modelled.
- The read-then-save race between concurrent requests is concurrency. Each handler is one atomic step.
- index.js (framework wiring), test_join.js (event routes) and test_db.js (database dump) are plumbing and I/O.
- Step counting, streaks and the leaderboard are not in any file of this model.

## Findings

| source | as written | input that shows it | evidently intended | confidence | as-written member | corrected member |
|---|---|---|---|---|---|---|
| routes/auth.js:92-96 | `/verify-otp` never checks `isVerified`. On a verified account the cleared `otp` equals an absent request `otp` (`undefined === undefined`), and `undefined < new Date()` is false, so both checks pass | `POST /verify-otp` with body `{ "email": <any verified account's email> }` and no `otp` | an already verified account is refused, and a token is issued only for the pending code | not executed; assumes the schema leaves cleared fields undefined | Properties.VerifyOtpAcceptsMissingCode | Properties.VerifyOtpGuardedRequiresCode |
