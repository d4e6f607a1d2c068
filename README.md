# Authentication core of a university-only social service, in Dafny

This project models the credential lifecycle and access-control layer of a
Node/Express back end that admits only university e-mail addresses:

- **Account service** (`src/controllers/authController.js`). It covers the
  university e-mail allow-list, token issuing, and the `register`, `login`,
  `getProfile` and `logout` handlers. The `users` table is a field
  `users: map<Id, User>` of the class `Accounts.AccountService`, and the SERIAL
  sequence is a field `nextId`. The class invariant is the table's two UNIQUE
  constraints (e-mail, username), plus "every id is below `nextId`".
  `register` and `login` are methods that walk the same early-return chain as
  the source. Each is specified by a pure function of the old store:
  `RegisterCheck` with `NewUser` for register, `LoginCheck` for login.
- **Identity resolver** (`src/middleware/auth.js`). Bearer-token extraction
  (`authHeader.split(' ')[1]`) is modelled by `BearerToken`. The mandatory
  `authenticateToken` and the degrading `optionalAuth` are modelled twice:
  once as pure functions (`Authenticate`, `OptionalIdentity`), and once as
  methods of `AuthMiddleware.Request`. The methods assign `req.user`, count the
  calls to `next()` and record the error response sent.
- **Rate limiter bank** (`src/middleware/rateLimiter.js`). There are four
  configurations:

  | limiter | window | max | key | skip |
  |---|---|---|---|---|
  | `authLimiter` | 900000 ms (15 min) | 5 | `ip-UserAgent` | never |
  | `generalLimiter` | 900000 ms (15 min) | 100 | `ip` | when `NODE_ENV` is `development` |
  | `passwordResetLimiter` | 3600000 ms (60 min) | 3 | `ip` | never |
  | `registrationLimiter` | 3600000 ms (60 min) | 3 | `ip` | never |

  Each limiter has its own 429 message. They are `RateLimit.Limiter` objects
  with a per-key map `hits: map<string, Window>`, and `RateLimit.LimiterBank`
  holds the four of them. The model counts with one fixed window per key:
  - a key's window opens at its first request and lasts `windowMs`;
  - the window has elapsed once `start + windowMs <= now`;
  - every request that is not skipped adds one to the count;
  - a request is refused with status 429 when the count then exceeds `max`.
- **Routing order** (`src/rotes/auth.js`). `Routes.App` puts the registration
  limiter before `register` and the authentication limiter before `login`. It
  puts `authenticateToken` before `getProfile` and before `logout`.

External pieces are parameters:
- bcrypt is `Crypto.hash(password, rounds, salt)` and `Crypto.compare`. The salt
  that `bcrypt.hash` draws becomes a method argument. The only fact assumed is
  `HashSound`: a password matches its own digest.
- `jwt.sign` is `Crypto.sign(userId, email)`.
- `jwt.verify` is a function argument `verify: string -> Verification`. It
  returns the claims, `JsonWebTokenError`, `TokenExpiredError` or another
  error. Two facts about jsonwebtoken are named as predicates and assumed
  only where a contract says so (`Routes.RegisterThenAuthenticate`):
  - `Accounts.Recovers`: the verifier holds the signing secret, so it decodes
    every issued token to the claims signed into it;
  - `Accounts.CompactTokens`: an issued token is never empty and never
    contains a space, as a compact JWT does.
- `CURRENT_TIMESTAMP`, `Date.now()` and `NODE_ENV` are arguments.

In the request body, an absent field and an empty string are both falsy and
take the same branch. Both are modelled as `""`, and an absent or zero `year`
as `0`.

### Two surprising behaviours of the e-mail check

- The e-mail check is a plain `endsWith` over the allow-list. It never looks
  at the `@` or at where the domain starts. So `foo@evil.com/u-tokyo.ac.jp`
  is accepted, and so is any string ending in `.ac.jp` or `.edu`
  (`SuffixOnlyAcceptsForeignHost`, `ValidateIsGenericTailTest`). A check
  meant to admit only university mailboxes would be expected to refuse such
  strings.
- The domain check runs on the e-mail as typed. Only the lookup and the
  insert use the lower-cased form. An address typed with an upper-case tail
  such as `.AC.JP` is therefore refused, although its lower-cased form would
  pass, and that lower-cased form is what would have been stored
  (`UpperCaseUniversityAddress`, `UpperCaseRegistrationRefused`). E-mail
  domains are case-insensitive, so the same mailbox is accepted or refused
  depending only on how it was typed.

`ValidateIsGenericTailTest` also shows that the fifteen university-specific
`*.ac.jp` entries of the allow-list add nothing. The check is equivalent to a
test against `.ac.jp`, `.edu`, `.edu.au`, `.edu.cn`, `.edu.sg`, `waseda.jp`
and `keio.jp`.

## Model

| member | source | states |
|---|---|---|
| `Common.Split` | src/middleware/auth.js:8 | `split(' ')` yields at least one part, no part contains the separator, and joining the parts with it gives the string back |
| `Common.SplitJoin` | src/middleware/auth.js:8 | the other half of the round trip: splitting separator-free parts joined by the separator gives the parts back |
| `Common.SplitAtFirst` | src/middleware/auth.js:8 | the first part of `split(' ')` is the text before the first space, and the rest is the split of what follows it |
| `Common.Lower` | src/controllers/authController.js:68 | `toLowerCase()` keeps the length, turns each upper-case ASCII letter into its lower-case letter, and changes no other character |
| `Common.LowerKeepsSuffix` | src/controllers/authController.js:88 | lower-casing an address lower-cases each of its suffixes |
| `Accounts.EndsWithAny` | src/controllers/authController.js:16 | the `some(... endsWith ...)` scan is true iff some listed suffix ends the string |
| `Accounts.ValidateUniversityEmail` | src/controllers/authController.js:6-17 | true iff the address, as given, ends with one of the 22 listed domains |
| `Accounts.ValidateIsGenericTailTest` | src/controllers/authController.js:7-16 | the check is equivalent to a suffix test against the seven generic tails, because each university-specific entry ends in `.ac.jp` |
| `Accounts.SuffixOnlyAcceptsForeignHost` | src/controllers/authController.js:16 | `foo@evil.com/u-tokyo.ac.jp` and a bare `x.edu` are accepted |
| `Accounts.UpperCaseTailRejected` | src/controllers/authController.js:7-16 | an address whose last character is an upper-case letter is always rejected |
| `Accounts.UpperCaseUniversityAddress` | src/controllers/authController.js:42 | an address ending in `.AC.JP` is rejected while its lower-cased form is accepted |
| `Accounts.GenerateToken` | src/controllers/authController.js:20-26 | the token carries exactly the claims `{userId, email}`: every verifier holding the signing secret decodes it to those two values |
| `Accounts.RegisterCheck` | src/controllers/authController.js:34-131 | register completes iff all four fields are non-empty, the domain is listed, the password has at least 8 characters, the username has 3 to 20, no row has the lower-cased e-mail or username, and every value fits its column (as PostgreSQL stores it, trailing spaces past the width allowed); it answers 409 exactly when only the collision check fails, and 500 "Registration failed" exactly when everything but the column widths passes |
| `Accounts.RegisterRejectionOrder` | src/controllers/authController.js:34-63 | the 400 answers come in source order (missing fields, bad domain, weak password, bad username), each only when all earlier checks passed |
| `Accounts.UpperCaseRegistrationRefused` | src/controllers/authController.js:42-47 | a complete registration whose address ends in an upper-case letter is refused with "Invalid email domain" |
| `Accounts.Clip` | src/controllers/authController.js:83-96 | the value a VARCHAR(n) column stores: the whole value when it fits, otherwise its first `n` characters, and only spaces are dropped |
| `Accounts.OverlongNameFailsInsert` | src/controllers/authController.js:83-131 | a full name with a character other than a space past the 100th passes every input check and then makes the insert fail, answered with 500 "Registration failed" |
| `Accounts.InsertRunsExactly` | src/controllers/authController.js:83-96 | the INSERT runs, and draws an id, exactly on success or on a 500 whose cause is not an out-of-range `year` |
| `Accounts.PaddedNameIsCut` | src/controllers/authController.js:83-96 | a full name over 100 characters only through trailing spaces does not stop registration, and the row keeps its first 100 characters |
| `Accounts.AddressNeverCut` | src/controllers/authController.js:86 | an address that passes the domain check ends in a letter, so it fits VARCHAR(255) exactly when it has at most 255 characters |
| `Accounts.NewUser` | src/controllers/authController.js:83-96 | the stored row holds the lower-cased e-mail and username and the digest rather than the password; full name, university and department are `Clip` of the given values, university and department NULL when empty; `year` is the given year, or NULL for 0; the row is active and has `created_at` and `last_login` set to the registration time |
| `Accounts.InsertKeepsUnique` | src/controllers/authController.js:66-96 | inserting a row whose e-mail and username are not taken keeps both UNIQUE constraints |
| `Accounts.SecondRegistrationConflicts` | src/controllers/authController.js:66-76 | once a row is stored, a later valid registration with the same e-mail or the same username, in any letter case, gets 409 "User already exists" |
| `Accounts.FindByEmail` | src/controllers/authController.js:148-152 | the lookup returns a row with exactly that e-mail, and returns none iff no row has it |
| `Accounts.FindByEmailUnique` | src/controllers/authController.js:148-161 | under the UNIQUE constraint the row found is the only row with that e-mail |
| `Accounts.LoginCheck` | src/controllers/authController.js:140-178 | a missing e-mail or password gives "Missing credentials", and only then; a login is accepted only for an active row with the lower-cased e-mail whose digest matches the password; "Account deactivated" only for an existing inactive row; every refusal is one of the three listed answers |
| `Accounts.LoginAccepts` | src/controllers/authController.js:140-187 | conversely, both fields present, an active row with the lower-cased e-mail, and a matching password give acceptance of that row |
| `Accounts.CredentialFailuresAlike` | src/controllers/authController.js:154-178 | an unknown e-mail and a wrong password give the identical 401 status, error and message |
| `Accounts.DeactivatedBeforePassword` | src/controllers/authController.js:163-178 | a deactivated account gets "Account deactivated" whatever the password, so the password is never compared |
| `Accounts.RegisterThenLogin` | src/controllers/authController.js:79-187 | after a successful registration, login with the same e-mail and password accepts the new row, given only that bcrypt matches a password to its own digest |
| `Accounts.AccountService.Register` | src/controllers/authController.js:34-131 | keeps the store invariant; a rejection leaves the store unchanged; the id sequence advances exactly when the INSERT runs, that is on success and on a 500 caused by a too-wide text value; success adds exactly one row under a fresh id (`NewUser`) and returns a token for that id and the stored e-mail with a projection without the password |
| `Accounts.AccountService.Login` | src/controllers/authController.js:140-202 | a refusal leaves the store unchanged; only an accepted login updates the matched row's `last_login`, and nothing else, then returns a token for that row's id and e-mail |
| `Accounts.AccountService.GetProfile` | src/controllers/authController.js:214-249 | 404 "User not found" iff no row has the identity's id, otherwise the row's profile fields |
| `Accounts.AccountService.Logout` | src/controllers/authController.js:261-269 | changes no state and always reports success |
| `AuthMiddleware.BearerToken` | src/middleware/auth.js:7-10 | a token is found only in a header containing a space, and it is non-empty and space-free |
| `AuthMiddleware.AnySchemeAccepted` | src/middleware/auth.js:8 | the token is the second space-separated field whatever the first word is, with or without further fields |
| `AuthMiddleware.EmptySecondFieldNoToken` | src/middleware/auth.js:8-15 | a header with nothing after the first space, or with two spaces in a row, carries no token |
| `AuthMiddleware.Authenticate` | src/middleware/auth.js:5-72 | no token gives 401 "Access token required"; success requires a verified token naming an active row, and the identity comes from that row; every other outcome is one of the listed rejections |
| `AuthMiddleware.VerifyFailuresMapped` | src/middleware/auth.js:53-71 | `JsonWebTokenError` gives 403 "Invalid token", `TokenExpiredError` gives 403 "Token expired", and any other error gives 500 |
| `AuthMiddleware.VerifiedTokenNeedsActiveRow` | src/middleware/auth.js:21-49 | a verified token with no row gives 401 "Invalid token", an inactive row gives 401 "Account deactivated", and an active row gives `{userId, email, username, fullName}` taken from the row |
| `AuthMiddleware.OptionalIdentity` | src/middleware/auth.js:76-105 | `optionalAuth` yields an identity iff `authenticateToken` would succeed, and then the identical one; otherwise `null` |
| `AuthMiddleware.Request.AuthenticateToken` | src/middleware/auth.js:5-73 | on success sets `req.user` and calls `next()` once; on each rejection sends it, leaves `req.user` alone and does not call `next()` |
| `AuthMiddleware.Request.OptionalAuth` | src/middleware/auth.js:76-106 | calls `next()` exactly once, sends no response, and sets `req.user` to the identity or `null` |
| `RateLimit.Step` | src/middleware/rateLimiter.js:4-11 | a skipped request changes nothing; otherwise only the request's key changes, the request is admitted iff that key's count in its current window stays within `max`, and a refusal carries the limiter's message |
| `RateLimit.AuthKeyInjective` | src/middleware/rateLimiter.js:15-17 | for IP addresses without a `-`, two clients share an authentication counter only when their IP and their agent text both agree |
| `RateLimit.RefusedWhenFull` | src/middleware/rateLimiter.js:5-11 | within an open window that has seen `max` requests, the next one is refused with the configured message |
| `RateLimit.OpensNewWindow` | src/middleware/rateLimiter.js:5-6 | the first request of an unseen key, or of a key whose window has elapsed, opens the window `(now, 1)` and is admitted iff `max` is at least one |
| `RateLimit.WindowCount` | src/middleware/rateLimiter.js:5-6 | requests of one key inside its open window raise the count by one each, and the number admitted is exactly how far the count rises up to `max` |
| `RateLimit.SingleKeyAtMostMax` | src/middleware/rateLimiter.js:5-6 | a run of one key's requests all within `windowMs` of the first, starting with no open window, admits at most `max` |
| `RateLimit.OtherKeysIrrelevant` | src/middleware/rateLimiter.js:15-17 | other keys' requests do not affect a key: over any trace its counter, and the number of its requests admitted, equal those of the trace filtered to that key |
| `RateLimit.AtMostMaxPerWindow` | src/middleware/rateLimiter.js:5-6 | over any trace, with other keys' requests interleaved, at most `max` of one key's requests are admitted when they all fall within `windowMs` of its first one and that first one opens a new window |
| `RateLimit.GeneralSkippedInDevelopment` | src/middleware/rateLimiter.js:35-38 | with `NODE_ENV` set to `development` the general limiter never counts and never refuses |
| `RateLimit.OnlyGeneralSkips` | src/middleware/rateLimiter.js:35-38 | only the general limiter is ever bypassed, and only when `NODE_ENV` is `development` |
| `RateLimit.AgentsCountedSeparately` | src/middleware/rateLimiter.js:15-17 | the authentication limiter gives one IP with different user agents different keys, and the registration limiter gives them the same key |
| `RateLimit.MissingAgentSharesCounter` | src/middleware/rateLimiter.js:16 | a missing `User-Agent` shares its counter with the literal agent `undefined` |
| `RateLimit.LimiterTable` | src/middleware/rateLimiter.js:4-62 | the four limiters' windows and limits (15 min / 5, 15 min / 100, 60 min / 3, 60 min / 3), and that only the authentication limiter keys by agent |
| `RateLimit.Limiter.Admit` | src/middleware/rateLimiter.js:4-11 | decision and new counters are exactly `Step` of the old counters |
| `RateLimit.LimiterBank.Admit` | src/middleware/rateLimiter.js:4-62 | a request through one limiter updates that limiter as `Step` says and leaves the other three limiters' counters unchanged |
| `Routes.RegisterThenAuthenticate` | src/controllers/authController.js:100-101 | the token issued at registration, sent as `Bearer <token>` to a verifier holding the signing secret, resolves to the new row's identity, given that issued tokens are compact (non-empty, no space) |
| `Routes.App.PostRegister` | src/rotes/auth.js:9 | a request the registration limiter refuses gets 429 and never reaches the store or the id sequence; otherwise `register` runs as specified, including when the id sequence advances |
| `Routes.App.PostLogin` | src/rotes/auth.js:10 | a request the authentication limiter refuses gets 429 and never reaches the store; otherwise `login` runs as specified |
| `Routes.App.GetProfile` | src/rotes/auth.js:13 | the identity check's rejection is the reply; after it succeeds the profile is always found |
| `Routes.App.PostLogout` | src/rotes/auth.js:14 | the identity check's rejection is the reply; after it succeeds logout reports success |

## Left out

- `src/database/connection.js` is not part of this model: the connection
  pool, the connection test, the table DDL and `process.exit` are I/O. These
  schema facts are used:
  - the UNIQUE constraints on e-mail and username are the store invariant;
  - `is_active` defaults to true on insert;
  - the column types `email` VARCHAR(255), `full_name`, `university` and
    `department` VARCHAR(100), and `year` INTEGER decide whether the insert
    succeeds (`Accounts.FitsSchema`, `Accounts.FitsColumn`).
- `server.js` is not part of this model. It holds the application bootstrap,
  the global limiter repeating the 15-minute / 100 configuration, the
  health, 404 and error handlers, and `listen`.
- bcrypt and jsonwebtoken are uninterpreted parameters. Salt generation, cost
  factor semantics, constant-time comparison, signatures, the 7-day lifetime,
  and the `fallback_secret` used for signing but not for verifying are not
  modelled. `Routes.RegisterThenAuthenticate` assumes, as preconditions, that
  the verifier recovers the signed claims (`Recovers`) and that tokens are
  compact (`CompactTokens`). The code does not guarantee the first, because
  signing and verification can use different secrets.
- Store and infrastructure failures are not modelled: a query that throws
  because the database is unreachable or fails. The `catch` blocks then
  answer 500 in `register`, `login`, `getProfile` and `logout`. In
  `authenticateToken` (`src/middleware/auth.js:66-71`) a failing user query
  also answers 500 "Authentication failed". In `optionalAuth`
  (`src/middleware/auth.js:101-104`) it leaves `req.user` null. In the model
  the user query always answers, so `AuthenticationFailed` arises only from a
  verifier error, and `optionalAuth` gives null only for a missing token, a
  verifier error, or no active row.
- The register insert fails, and is answered 500 "Registration failed", when
  a value is wider than its column. For VARCHAR(n), PostgreSQL instead cuts
  an over-long value to `n` characters when everything past the `n`-th is a
  space. `Accounts.FitsSchema` and `Accounts.FitsColumn` model both cases for
  the e-mail, full name, university, department and year, and
  `Accounts.NewUser` stores the cut value. The `id` default is taken to draw
  from the SERIAL sequence before the text values are coerced to their
  columns, and a failed statement never gives the value back. So a 500 caused
  by a text value uses up an id. The `year` parameter is bound before the
  statement runs, so an out-of-range `year` uses none. A digest over 255
  characters is not modelled, since bcrypt digests have 60. An insert that
  fails on a UNIQUE constraint because a concurrent registration got in
  first is also not modelled: that needs two requests in flight.
- `getProfile`'s 404 needs the row to disappear between `authenticateToken`
  and the profile query. That takes concurrent requests, which this
  sequential model does not have: `Routes.App.GetProfile` proves the profile
  is always found.
- `Common.Lower`: lower-cases the ASCII letters only. JavaScript's
  `toLowerCase` also folds non-ASCII letters.
- String lengths are counted in Dafny characters (Unicode scalar values)
  rather than UTF-16 code units. Password and username limits therefore
  differ for characters outside the Basic Multilingual Plane.
- Request fields of an unexpected JSON type are not modelled. `year` is an
  integer. A `year` sent as a string that is not an integer, such as
  `"abc"`, or as a fraction, makes the insert fail with 500. Text fields sent
  as numbers or objects are not modelled either.
- The fixed window per key is this model's reading of `rateLimit(...)`. The
  library version is not pinned. The `onLimitReached` option belongs to
  `express-rate-limit` 6 and earlier. The in-memory store of those versions
  resets all keys together on one `windowMs` timer, rather than opening a
  window at each key's first request. Windows under that store are not
  modelled.
- The `RateLimit-*` response headers, `onLimitReached` logging and the
  atomicity of concurrent counter updates are not modelled. Each `Admit` is
  one sequential step.
- `Routes.App.PostRegister` and `Routes.App.PostLogin` state the success
  case by the store update and the reply kind. The full reply is stated by
  `Accounts.AccountService.Register` and `Accounts.AccountService.Login`.
- `created_at` and `last_login` get the request time passed in, as a number.
  Console logging is left out.
