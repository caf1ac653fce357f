# AuthGate core, modelled in Dafny

AuthGate is an Express service for email and password accounts. It registers users,
activates them from an emailed link, logs them in through passport's local strategy,
and mints an access token and a refresh token. This project models the four files
that make those decisions:

- the request guards in `src/middlewares/user.middlewares.js`:
  - body validation;
  - the activation-link guard;
  - the role gate;
  - the bearer-token guard.
- the passport configuration in `src/config/passport.js`:
  - session serialisation;
  - session deserialisation;
  - the local strategy's verify callback.
- the handlers in `src/controllers/user.controllers.js`: `userRegister`, `loginUser`
  and `generateToken`.
- the data-access layer in `src/services/user.services.js`, over the `users` and
  `refresh_tokens` tables, here held in memory.

The Dafny modules follow those files:

| module | file | models |
|---|---|---|
| `Outcomes` | `outcomes.dfy` | The values that pass between the files. A call into a collaborator either returns or throws. An Express handler ends in exactly one way: `next()`, `next(err)`, a response, or a rejected promise. A token check answers `{ valid, decoded }`. |
| `JsText` | `jstext.dfy` | The two JavaScript built-ins the guards depend on: `String.prototype.split` with a one-character separator, and `parseInt` without a radix. `parseInt` skips white space, reads a sign and a `0x` prefix, and reads the longest digit run. |
| `Duration` | `duration.dfy` | The string form of the `ms` package that turns `JWT_REFRESH_EXPIRES_IN` into milliseconds: an integer amount, spaces, and a unit name in any case. Strings over 100 characters give `undefined`. |
| `Store` | `store.dfy` | The class `UserStore` with the two tables and their auto-increment counters. It has the five service functions plus the corrected login lookup (see Findings). Its invariant: ids are positive, below the counter, and increasing in insertion order. |
| `Guards` | `guards.dfy` | The class `Request`: its `body` and `emailVerify` fields are updated in place. The four middlewares operate on it. |
| `Passport` | `passport.dfy` | The three passport callbacks, each ending in one `done(err, user)`. Two store-backed methods perform the lookup the callbacks await. |
| `Controllers` | `controllers.dfy` | Token minting, the refresh TTL computation, and the two handlers as methods that update the store. |

Collaborators the core calls but does not define become parameters:

- the bcrypt hashing and comparison: `hashPassword`, `hashToken`, `comparePassword`;
- the JWT signing and checking: `generateAccessToken`, `generateRefreshToken`, `checkJWTToken`, `checkEmailActivateToken`;
- the joi schema: `userSchema.validate`;
- the activation-state lookup: `checkAccountActivate`;
- each database query's failure: `fault`;
- the database clock: `now`;
- the environment variable `JWT_REFRESH_EXPIRES_IN`.

Where a statement says that a guard never consults a collaborator, it is proved by
showing that the outcome is the same for any two choices of that collaborator.

## Model

| member | source | states |
|---|---|---|
| `Guards.ValidateUser` | src/middlewares/user.middlewares.js:5-16 | A schema failure calls `next` with a 400 error that carries the first message, and leaves the body unchanged. A success replaces the body with the schema's normalised value and calls `next()`. |
| `Guards.ActivationDecision` | src/middlewares/user.middlewares.js:18-31 | Control passes to `next()` if and only if all of these hold: both query parameters are truthy, the token check returns a valid payload, `parseInt(uid)` equals the payload's id, and the account lookup reports that the email is not yet verified. It answers 200 "Account already activated" if and only if the same conditions hold except that the account is already verified. That is the only response it sends, and it never rejects. |
| `Guards.AlreadyActivatedResponds` | src/middlewares/user.middlewares.js:24-25 | A valid link for an account that is already verified gets the 200 "Account already activated" answer and leaves the request unchanged, so following the link again has no effect. |
| `Guards.ValidateActivateAccount` | src/middlewares/user.middlewares.js:18-31 | Takes the decision above. It sets `req.emailVerify` to the raw `uid` exactly when it calls `next()`, and in every other case leaves the request unchanged. |
| `Guards.MissingParamsShortCircuit` | src/middlewares/user.middlewares.js:19-20 | Without a truthy `token` and a truthy `uid`, the answer is the 400 "Missing token or uid" error. Neither the token check nor the account lookup affects that outcome. |
| `Guards.RejectedTokenSkipsLookup` | src/middlewares/user.middlewares.js:22-23 | An invalid token, or one minted for a different id than `uid`, gives the 400 "Invalid token or uid" error. The account lookup does not affect that outcome. |
| `Guards.CollaboratorErrorsPassToNext` | src/middlewares/user.middlewares.js:21-30 | An error thrown by the token check, or by the account lookup, reaches `next(err)` unchanged. |
| `Guards.TrailingTextInUidAccepted` | src/middlewares/user.middlewares.js:23 | A `uid` made of the token's id followed by non-digit text passes the id comparison, because `parseInt` reads only the leading number. |
| `Guards.PaddedUidAccepted` | src/middlewares/user.middlewares.js:23-26 | A `uid` written as the token's id after white space, a `+` sign or leading zeros (such as `" 5"`, `"+5"` or `"05"` for id 5) also passes the id comparison, and the guard calls `next()` for an account not yet active. |
| `Guards.ActivationAsWrittenNeverProceeds` | src/middlewares/user.middlewares.js:2 | With the token-check import as written, no activation link reaches `next()`. Every complete link ends in `next(TypeError)`. |
| `Guards.CheckUserRole` | src/middlewares/user.middlewares.js:33-37 | The gate answers 401 if and only if there is no user. It calls `next()` if and only if the role is `user` or `admin`. Every other user goes to `next(Error("Forbidden"))`. |
| `Guards.BearerToken` | src/middlewares/user.middlewares.js:40-42 | A token taken from the header is non-empty, contains no space, and only exists when a header is present. |
| `Guards.VerifyJwtToken` | src/middlewares/user.middlewares.js:39-45 | Control passes to `next()` if and only if the header carries a token and that token checks as valid. Otherwise the guard answers 401 when there is no token and 403 when there is one. |
| `Guards.NoTokenNeverChecked` | src/middlewares/user.middlewares.js:41-42 | When the header yields no token the answer is 401, and the token checker does not affect it. |
| `Guards.HeaderWithoutSpaceHasNoToken` | src/middlewares/user.middlewares.js:41-42 | A header without a space, such as a bare `Bearer`, yields no token. |
| `Guards.BearerTokenIsSecondField` | src/middlewares/user.middlewares.js:41 | `<scheme> <token>` yields exactly `<token>`, whatever the scheme is. |
| `Guards.BearerTokenFollowsFirstSpace` | src/middlewares/user.middlewares.js:41 | Conversely, a token that is found is exactly the text after the first space, up to the next space or the end of the header. |
| `JsText.Split` | src/middlewares/user.middlewares.js:41 | `split(' ')` returns at least one piece, and no piece contains the separator. |
| `JsText.JoinSplit` | src/middlewares/user.middlewares.js:41 | Splitting loses nothing: joining the pieces with the separator gives back the header. |
| `JsText.SplitSepFree` | src/middlewares/user.middlewares.js:41 | A string without the separator splits into itself alone. |
| `JsText.SplitAround` | src/middlewares/user.middlewares.js:41 | A separator between `a` and `b` splits into the pieces of `a` followed by the pieces of `b`. |
| `JsText.ParseIntReadsLeadingDecimal` | src/middlewares/user.middlewares.js:23 | `parseInt` reads back the decimal rendering of any natural number. It ignores text after the number as long as that text does not continue the number. |
| `JsText.ParseIntReadsLeadingNegative` | src/middlewares/user.middlewares.js:23 | The same holds for a leading minus sign, which gives the negated number. |
| `JsText.ParseIntSkipsPadding` | src/middlewares/user.middlewares.js:23 | Leading white space, a `+` or `-` sign and leading zeros are skipped: `parseInt` of such a string is the signed number that follows them, whatever non-digit text comes after it. |
| `JsText.ParseIntReadsHexPrefix` | src/middlewares/user.middlewares.js:23 | A `0x` prefix switches to base 16: `parseInt("0x1F")` is 31. |
| `Passport.DeserializeUser` | src/config/passport.js:10-18 | `done` receives a user if and only if the lookup returned a row, and that user is exactly `{ id, email, role }` of the row. A missing row gives `Error("User not found")`, and a thrown error is passed on. In both of those cases the user is `null`. |
| `Passport.SessionRoundTrip` | src/config/passport.js:6-18 | Serialising a user whose id belongs to a stored row, then deserialising against the store, yields that row's `{ id, email, role }`. |
| `Passport.DeserializeFromStore` | src/config/passport.js:10-18 | Deserialisation with its `getUserById` lookup: a user comes back if and only if some row has that id. That user is `{ id, email, role }` of the first such row. A database error reaches `done`. |
| `Passport.LocalVerify` | src/config/passport.js:20-33 | The strategy accepts if and only if all of these hold: the lookup returned a row, `is_active` and `email_verified` are truthy, and the password comparison returned true. The accepted user is `{ id }` and nothing more. `err` is null exactly when a user is accepted. |
| `Passport.UnknownEmailSkipsCompare` | src/config/passport.js:23-24 | An unknown email gets "Incorrect email or password" with `false`, and the password comparison does not affect that answer. |
| `Passport.InactiveSkipsCompare` | src/config/passport.js:25 | An inactive or unverified user gets "User is not active or email not verified" with `false`, and the password comparison does not affect that answer. |
| `Passport.WrongPasswordLooksLikeUnknownEmail` | src/config/passport.js:24-27 | For an active, verified user, a wrong password gets the same `done` call as an unknown email. |
| `Passport.ThrownErrorsReachDone` | src/config/passport.js:29-31 | An error thrown by the lookup or by the comparison reaches `done(err, null)` unchanged. |
| `Passport.LoginAsWrittenAlwaysRefused` | src/config/passport.js:23-25 | Fed the columns that `getUserByEmail` selects as written, the strategy refuses every login. An unknown email gets the credentials error, and a known one gets the activity error. |
| `Passport.LoginWithFlagsSucceedsIff` | src/config/passport.js:23-28 | Fed the login columns, the strategy accepts `{ id }` of the first row with that email if and only if that row is active and verified and its password matches. |
| `Passport.LocalStrategy` | src/config/passport.js:20-33 | The strategy with its lookup against the store, using the corrected lookup. A database error reaches `done`. Otherwise it accepts if and only if the first row with the email is active and verified and its password matches. |
| `Passport.RoleGateAfterSession` | src/middlewares/user.middlewares.js:33-37 | A stored user restored from the session passes the role gate if and only if the stored role is `user` or `admin`. Otherwise the gate forwards "Forbidden". |
| `Store.IndexOf` | src/services/user.services.js:31-35 | A `WHERE` lookup's `result[0]` is the first row that matches. No earlier row matches, and when there is no result, no row matches. |
| `Store.FreshIdFoundById` | src/services/user.services.js:6-10 | A row inserted with an id above every existing id is what a lookup by that id finds. |
| `Store.IncreasingIdsFoundById` | src/services/user.services.js:43-47 | When ids increase along the table, a lookup by a stored row's id finds that row. |
| `Store.UserStore.SaveUser` | src/services/user.services.js:3-15 | The insert appends one user with the next auto-increment id, the given email and the given digest, and returns `{ id, email }`; a lookup by that id then finds the row. A database error propagates and changes nothing. The store invariant is kept. |
| `Store.UserStore.SaveToken` | src/services/user.services.js:17-27 | The insert appends one token row that expires `ttl` seconds after `now`, and returns `{ id, user_id, expires_at: ttl }`. The rows already there are unchanged. A NaN `ttl` is written into the statement as the bare word `NaN`, which MySQL reads as an unknown column, so the insert fails and nothing changes. A database error propagates and changes nothing. |
| `Store.UserStore.Find` | src/services/user.services.js:31-47 | The scan returns the position of the first row that matches the lookup key. |
| `Store.UserStore.GetUserByEmail` | src/services/user.services.js:29-39 | As written: the first row with that email, carrying only `id` and `password_hash`, so both activity flags are absent. A database error propagates. |
| `Store.UserStore.GetLoginUserByEmail` | src/services/user.services.js:29-39 | The corrected lookup: the first row with that email, carrying `id`, `password_hash`, `is_active` and `email_verified`. |
| `Store.UserStore.GetUserById` | src/services/user.services.js:41-51 | The first row with that id, as `{ id, email, role }`. A database error propagates. |
| `Store.UserStore.GetRefreshToken` | src/services/user.services.js:53-62 | No result if and only if the user has no unexpired token. A result is `{ id, token_hash }` of one of that user's unexpired rows. |
| `Duration.Ms` | src/controllers/user.controllers.js:21 | `ms` reads nothing over 100 characters and nothing without a leading amount. The result is negative only after a leading minus sign. Its value, for a decimal amount with optional leading zeros and an optional minus sign, is given by `Duration.MsReadsAmountThenUnit` and `Duration.MsReadsPaddedAmount`. |
| `Duration.MsReadsAmountThenUnit` | src/controllers/user.controllers.js:21 | `ms` of a number followed by a unit is the number times that unit's milliseconds, and `undefined` for an unknown unit. |
| `Duration.LowerAscii` | src/controllers/user.controllers.js:21 | Unit names are matched without regard to case: `A`-`Z` become `a`-`z`, every other character is kept, and no upper-case letter is left. |
| `Duration.MsAmountPadded` | src/controllers/user.controllers.js:21 | Leading zeros before the amount do not change it: the unsigned part is the amount times the unit's milliseconds, or `undefined` for an unknown unit. |
| `Duration.MsSigned` | src/controllers/user.controllers.js:21 | A leading minus sign negates the unsigned part that follows it, and no sign leaves it as it is. |
| `Duration.MsReadsPaddedAmount` | src/controllers/user.controllers.js:21 | `ms` of an optional minus sign, leading zeros, a number and a unit is the signed number times the unit's milliseconds, and `undefined` for an unknown unit. |
| `Controllers.GenerateToken` | src/controllers/user.controllers.js:29-34 | The pair exists if and only if both signings succeed, and then it is exactly the access token and the refresh token for the same user. An access-signing error propagates before the refresh token is signed. A refresh-signing error propagates after the access token is signed. |
| `Controllers.GeneratedTokensVerifyByClass` | src/controllers/user.controllers.js:29-34 | An ordering fact. Assume each token verifies only under the secret of its own class. Then the first token of the pair is the access token and the second the refresh token. |
| `Controllers.RefreshTtlSeconds` | src/controllers/user.controllers.js:21 | `Math.floor(ms(setting) / 1000)`, where an unset or empty setting means `"7d"`, is NaN if and only if `ms` cannot read the setting. Otherwise it is the whole number of seconds `s` with `1000*s <= ms < 1000*s + 1000`. |
| `JsText.ParseInt` | src/middlewares/user.middlewares.js:23 | `parseInt` of a string with no decimal digit is NaN. A negative result needs a leading minus sign after the white space. For decimal input its value is given by `JsText.ParseIntReadsLeadingDecimal`, `JsText.ParseIntReadsLeadingNegative` and `JsText.ParseIntSkipsPadding`; `0x` input is covered only by `JsText.ParseIntReadsHexPrefix`. |
| `Controllers.DefaultRefreshTtl` | src/controllers/user.controllers.js:21 | With the variable unset or empty, the refresh TTL is seven days: 604800 seconds. |
| `Controllers.RefreshTtlInDays` | src/controllers/user.controllers.js:21 | A setting of `<n>d` is `n * 86400` seconds. |
| `Controllers.RefreshTtlRoundsDown` | src/controllers/user.controllers.js:21 | A bare number is read as milliseconds and rounded down to whole seconds. |
| `Controllers.UserRegister` | src/controllers/user.controllers.js:6-15 | A failure of hashing or of the insert goes to `next(err)` and stores nothing. Otherwise it stores exactly one new row carrying the digest, never the password, and answers 201 with the new id, the email and "User registered". |
| `Controllers.LoginUser` | src/controllers/user.controllers.js:17-26 | The handler requires `req.user` to be set, which the login route guarantees by authenticating first. A failure of signing, of hashing or of the insert rejects the handler's promise and stores nothing. The insert also fails on a NaN TTL. Otherwise it answers 201 with both raw tokens and appends exactly one refresh-token row. That row belongs to the user, carries the digest of the refresh token and expires after the configured TTL. With a positive TTL, the user then has an unexpired refresh token. |

## Left out

- Hashing (`src/utils/hash.js`) and JWT signing and verification (`src/utils/jwtToken.js`) are not part of this model. They appear only as function parameters, and nothing about bcrypt or JWT cryptography is modelled.
- `Controllers.GenerateToken`: the signing parameter may fail, but when it fails is not modelled. In particular, `generateRefreshToken` passes the same `JWT_REFRESH_EXPIRES_IN` to the JWT library as its `expiresIn`. If that library refuses an unset value, the handler rejects before the `|| "7d"` fallback at src/controllers/user.controllers.js:21 is reached. The model does not tie the signer to that setting.
- `Guards.ValidateUser`: the body before validation is typed as two strings. Malformed bodies the schema exists to reject, such as a missing field or a non-string value, are not representable; only the schema's verdict on them is.
- `checkAccountActivate` is not exported by the services module either. It is an abstract parameter of the activation guard, whose definition is not part of this model.
- Mail sending, the MySQL connection pool, rate limiting, the joi schema's rules, the routes, `app.js` and `server.js` are not part of this model. The schema is a parameter that either returns a normalised body or fails with its messages.
- Asynchrony and concurrency: each handler's awaits run in order, and interleavings between concurrent requests are not modelled.
- `Store.UserStore`: the tables' column defaults come from a table definition that is not part of this model. The model assumes role `user`, active, and unverified for a new account.
- `Store.UserStore`: auto-increment ids are consecutive. The gaps MySQL leaves after failed inserts are not modelled, but ids still increase.
- `Store.UserStore`: email comparison is exact. A case-insensitive collation in MySQL would match more rows.
- `Store.UserStore.GetRefreshToken`: the query has no `ORDER BY`, so the contract promises some unexpired row, not a particular one. The method happens to return the first such row in table order.
- `Duration.Ms`: fractional amounts such as `1.5h` are not read; they give `undefined` here, where the `ms` package accepts them. Floating-point rounding of the result is not modelled.
- `JsText.ParseInt`: integers are unbounded. Precision lost beyond 2^53 is not modelled, and a non-numeric `decoded.id` in a token payload is not representable.
- `JsText.ParseInt`: base-16 reading after a `0x` prefix is modelled in the function, but its value is stated only for the single example `"0x1F"`, not for every hexadecimal string.
- `Guards.ActivationDecision`: the query is typed as at most one string per parameter. Express parses a repeated parameter such as `?uid=5&uid=6` into an array, which `parseInt` reads as the string `"5,6"` and so as 5; arrays and nested query objects are not representable.
- Errors thrown by `next`, by `res.status(...).json(...)` or by `done` themselves are not modelled.
- Several expectations in the repository's tests contradict the code: a 403 from the role gate, a 403 from `verifyJWTToken` when `req.user` is missing (tests/middlewares.test.js:138-145; the guard never reads `req.user`, and `Guards.VerifyJwtToken` calls `next()` for a valid token), a verification mail on registration, and helpers that the modules do not define. The model follows the code.
- `Passport.SerializeUser` has no contract of its own: it only hands the id to `done`. It is covered by `Passport.SessionRoundTrip`.

## Findings

| source | as written | input that shows it | evidently intended | confidence | as-written member | corrected member |
|---|---|---|---|---|---|---|
| src/services/user.services.js:32 | `getUserByEmail` selects only `id` and `password_hash`. The strategy then tests `user.is_active` and `user.email_verified` (src/config/passport.js:25), which are `undefined`, so every existing user is refused as "not active or email not verified". | Any stored user who is active and verified, with the correct password. | The lookup also selects `is_active` and `email_verified`, so that such a user logs in. `Passport.LoginWithFlagsSucceedsIff` proves this for the corrected lookup. | high; not executed | `Passport.LoginAsWrittenAlwaysRefused` | `Passport.LocalStrategy` |
| src/middlewares/user.middlewares.js:2 | It imports `checkEmailActivateToken`, which `src/utils/jwtToken.js:20` does not export. The name is `undefined`, so calling it at line 22 throws a `TypeError` that the `catch` passes to `next`. | Any activation link with a non-empty `token` and `uid`. | A token check exists and valid links reach `next()` with `req.emailVerify` set. | high; not executed | `Guards.ActivationAsWrittenNeverProceeds` | `Guards.ActivationDecision` |
