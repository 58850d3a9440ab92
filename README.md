# User accounts and access control of the shop backend, in Dafny

This project models the account and access-control core of an Express shop
backend: registration and password login, password recovery, linking or
creating accounts from a GitHub login, resolving who a request comes from
(session, `jwt` cookie or bearer header), the role check on protected routes,
and the document upload that gates the upgrade to `premium`.

The user collection is a map from id to a `User` record plus the next id to
hand out (`UsersModel.Db`). `UsersModel.Valid` is the invariant every handler
keeps:
- ids agree with their keys;
- the unique index on email holds;
- no two accounts share a GitHub id;
- reset token and expiry are written and cleared together;
- every account has a password hash or a GitHub id.

Each handler appears twice:
- a step function from the old collection and the request's inputs to the reply and the new collection (`RegisterStep`, `ResetStep`, `LinkStep`, ...), with lemmas stating what the source promises;
- a method under the source's own name, working on the collection object `UserStore.Users` (and, where the source does, on the `Http.Request` object), whose postcondition says that it takes exactly that step.

`findOne` is a scan in id order that stops at the first match (`UserStore.Users.FindOne`). MongoDB does not specify which match an unsorted `findOne` returns; taking the least id is this model's own choice. Lookups by email and by GitHub id find at most one record, so they do not depend on it. A reset token held by two accounts does, which is why `AuthController.RedeemIsSingleUse` assumes it is held once.

Primitives the core only calls are oracles:
- bcrypt's `hashPassword`/`isValidPassword` become an injective encoding that is never empty (`Crypto.HashPassword`).
- `jwt.sign`/`jwt.verify` become a map `signed` from the token strings that carry a valid signature to their payload (`Crypto.Verify`). A token is expired once `now >= exp`, as in section 4.1.4 of RFC 7519.
- `generateResetToken()` is a parameter (`ResetGrant`).
- Whether `sendMail` succeeded is a parameter.
- The clock is an integer `now`.

Behaviours of the code that the model keeps, which a reader might not expect:
- Registration stores whatever `rol` the request body names, so a client can register as `admin` (`AuthController.RegisterAddsOne`). Without a `rol`, the default is `user`.
- The bearer check takes the second space-separated word of the `Authorization` header and never checks that the first word is `Bearer` (`AuthMiddleware.BearerTokenShape`).
- Logout stamps `last_connection` only when a user is attached.
- `addUserToLocals` runs before every route (src/app.js:67) and sets `req.user` from a valid `jwt` cookie, and Passport's `req.isAuthenticated()` is true whenever `req.user` is set. So a request with a valid cookie and no session passes `ensureAuthenticated` on `/api/users` (src/app.js:90) and is redirected to `/` by `forwardAuthenticated` on `/reset/:token` (src/app.js:109) (`AuthMiddleware.AddUserToLocals`, `AuthMiddleware.EnsureAuthenticated`).
- The token issued after a GitHub login has no expiry (`AuthController.GithubTokenNeverExpires`).
- A reset token is single-use per account. Tokens are random, so two accounts could hold the same one; single use across the collection therefore needs that no other account holds it (`AuthController.RedeemIsSingleUse`).
- An account linked by email keeps its password, so it has both a password and a GitHub id. The invariant is therefore "a password hash or a GitHub id, or both".

The schema in src/models/usersModel.js:3-31 declares neither `githubId` nor `resetPasswordToken`/`resetPasswordExpires`, yet src/config/passport.js:47 and src/controllers/authController.js:84-85 write them. It also marks `password` as required, yet src/config/passport.js:42 stores `''`. The model keeps the fields as the controllers use them. Under Mongoose's default strict mode, assignments to undeclared paths are not saved, and the effect on queries depends on the `strictQuery` setting, which changed between Mongoose versions (the version is not part of this model):
- With `strictQuery` off, filters on undeclared paths are kept. The reset grant is then never stored, so the mailed token always fails: second row of "## Findings" (`AuthController.StrictSchemaDropsResetGrant`). Likewise `githubId` is never stored, so the `{ githubId }` lookup at src/config/passport.js:31 never matches and every GitHub login goes to the email branch or to the create branch, whose save fails validation (first row of "## Findings"); this consequence is not modelled.
- With `strictQuery` on, Mongoose also strips undeclared keys from filters. `findOne({ githubId })` at src/config/passport.js:31 and the reset lookup at src/controllers/authController.js:103-106 then become `findOne({})`: any GitHub login returns the first account, and any token, even an unknown one, resets the first account's password. This is not modelled either.

The required `password` is the first row of "## Findings".

## Model

| member | source | states |
|---|---|---|
| `UsersModel.ParseRole` | src/models/usersModel.js:17-21 | a string is accepted as a role exactly when it is `user`, `premium` or `admin`, and the role's name is that string |
| `UsersModel.FirstFrom` | src/controllers/authController.js:16 | the result is the least id in the range whose record matches the filter, and none means no record in the range matches |
| `UsersModel.FindOne` | src/controllers/authController.js:16 | `findOne` returns a matching record with no matching record before it, and returns none exactly when no record matches |
| `UsersModel.FindOneUnique` | src/models/usersModel.js:8-12 | a lookup by email (a unique index) or by GitHub id finds the one record that carries it |
| `UsersModel.InsertStep` | src/models/usersModel.js:8-12 | saving a new record fails with a duplicate key error exactly when its email is already held, and then nothing changes; otherwise the record is stored under the next, unused id and no other record changes |
| `UsersModel.InsertPreservesValid` | src/models/usersModel.js:3-31 | inserting a well-formed record whose GitHub id is unused keeps the collection invariant |
| `UsersModel.SavePreservesValid` | src/models/usersModel.js:3-31 | saving a record in place keeps the invariant when it stays well formed, keeps its email and takes no GitHub id already in use |
| `Crypto.HashInjective` | src/controllers/authController.js:21 | distinct passwords have distinct hashes, and no hash is empty |
| `Crypto.PasswordCheck` | src/config/passport.js:64 | a password verifies against exactly its own hash, and never against the empty password of a GitHub account |
| `Crypto.Sign` | src/controllers/authController.js:56 | a signed token carries exactly the given claims and issue time, and has an expiry exactly when a lifetime is given, at the issue time plus that lifetime |
| `Crypto.Verify` | src/middleware/authMiddleware.js:37 | a token verifies exactly when the server signed it and it has no expiry or `now` is before it; it then yields the signed claims |
| `Crypto.SignThenVerify` | src/controllers/authController.js:56 | a token signed with a lifetime verifies to its claims before `iat + lifetime` and is rejected from then on |
| `Crypto.UnsignedNeverVerifies` | src/middleware/authMiddleware.js:37 | a string the server never signed does not verify |
| `UserStore.Users.FindOne` | src/controllers/authController.js:16 | the scan in id order returns what `findOne` specifies: the first match, or none when nothing matches |
| `UserStore.Users.FindById` | src/middleware/authMiddleware.js:38 | returns the stored record for the id, or none |
| `UserStore.Users.Save` | src/controllers/authController.js:115 | `save()` replaces exactly that record |
| `UserStore.Users.Insert` | src/controllers/authController.js:22-23 | `new User(...).save()` takes exactly the insert step, unique email index included |
| `Passport.LinkStep` | src/config/passport.js:24-55 | a successful callback returns an account that carries the profile's GitHub id and is stored as returned; a failed one changes nothing |
| `Passport.ProfileEmail` | src/config/passport.js:26-29 | the provider email is present exactly when the profile lists at least one email, and it is the first one |
| `Passport.LinkFindsByGithubId` | src/config/passport.js:31-51 | an account already linked to the GitHub id is returned as stored, and nothing is written |
| `Passport.LinkAttachesByEmail` | src/config/passport.js:32-48 | with no linked account and a truthy provider email held by an account, that account gets the GitHub id; no other field and no other record changes |
| `Passport.LinkCreates` | src/config/passport.js:37-45 | with neither match, exactly one account is created under the next id: GitHub id, profile username, first provider email or none, password `''`, role `user`; if the email index already holds that email, the save fails and nothing changes |
| `Passport.LinkPreservesValid` | src/config/passport.js:24-55 | every outcome of the callback keeps the collection invariant, GitHub id uniqueness included |
| `Passport.LinkIdempotent` | src/config/passport.js:31-51 | a second callback with the same profile returns the same account and writes nothing |
| `Passport.GithubRecordFailsSchema` | src/config/passport.js:37-45 | the account the callback creates violates the schema's required `password`, but is authenticatable through its GitHub id |
| `Passport.GithubVerify` | src/config/passport.js:24-55 | the callback on the collection object takes exactly the link-or-create step and keeps the invariant |
| `Passport.LocalStrategy` | src/config/passport.js:58-71 | the check succeeds exactly when email and password are non-empty (passport-local refuses either one empty before the callback), an account has that email, and the password verifies against its hash; it then returns that stored account |
| `Passport.SerializeUser` | src/config/passport.js:74-76 | the session keeps exactly the user's id |
| `Passport.DeserializeUser` | src/config/passport.js:79-86 | an id yields a user exactly when a record is stored under it, and then that record |
| `Passport.SessionRoundTrip` | src/config/passport.js:74-86 | deserialising the id that `serializeUser` stored gives back the stored record |
| `AuthController.RegisterStep` | src/controllers/authController.js:13-34 | every failed registration leaves the collection unchanged, and a successful one changes no existing record |
| `AuthController.RegisterRejectsDuplicate` | src/controllers/authController.js:16-19 | a taken email answers 400 `User already exists` and writes nothing |
| `AuthController.RegisterRejectsInvalid` | src/controllers/authController.js:21-33 | with a fresh email, an empty username or email, or a `rol` outside the enum, fails schema validation: 500 `Error registering user`, nothing written |
| `AuthController.RegisterAddsOne` | src/controllers/authController.js:21-23 | a fresh email adds exactly one account, under a new id, with that email, username, the hash of that password, and the role the request named (`user` if none) |
| `AuthController.RegisterPreservesValid` | src/controllers/authController.js:13-34 | registration keeps the collection invariant |
| `AuthController.RegisterTwiceConflicts` | src/controllers/authController.js:16-23 | after one successful registration, a second with the same email is refused and writes nothing |
| `AuthController.RegisterUser` | src/controllers/authController.js:13-34 | the handler takes exactly the registration step; on success it logs the new account in, otherwise `req.user` is untouched; cookie, header and `res.locals.user` are untouched |
| `AuthController.LoginStep` | src/controllers/authController.js:36-63 | every answer other than a token is 401 `Invalid credentials`, and then nothing is written |
| `AuthController.LoginRejectsUniformly` | src/config/passport.js:58-66 | an empty email or password, an unknown email and a wrong password give the identical answer and write nothing |
| `AuthController.LoginStampsConnection` | src/controllers/authController.js:52-60 | a correct password stamps that account's last connection with `now`, changes no other record, and returns a token with its id, email and role expiring at `now + 3600` |
| `AuthController.LoginPreservesValid` | src/controllers/authController.js:52-54 | login keeps the collection invariant |
| `AuthController.LoginWithPassport` | src/controllers/authController.js:36-63 | the handler takes exactly the login step; on success the session holds the updated account, otherwise `req.user` is untouched; cookie, header and `res.locals.user` are untouched |
| `AuthController.GithubCallbackToken` | src/controllers/authController.js:67-72 | the token issued after a GitHub login carries the account's id, email and role, is issued at `now` and has no expiry |
| `AuthController.GithubTokenNeverExpires` | src/controllers/authController.js:67-72 | the token issued after a GitHub login verifies to the account's claims at every later time |
| `AuthController.ForgotStep` | src/controllers/authController.js:75-97 | no mail is sent exactly when the answer is 400 `User not found`, and then nothing is written |
| `AuthController.ForgotUnknownEmail` | src/controllers/authController.js:78-81 | an unknown email answers 400, writes nothing and mails nothing |
| `AuthController.ForgotStoresGrant` | src/controllers/authController.js:83-93 | a known email changes only that account's token and expiry, to the grant; the reset link goes to its email; a failed mail answers 500 but the grant stays |
| `AuthController.ForgotPreservesValid` | src/controllers/authController.js:83-86 | issuing a reset keeps the collection invariant |
| `AuthController.ResetStep` | src/controllers/authController.js:99-121 | the reset succeeds exactly when some account holds the token with an expiry strictly after `now`; it then gives such an account the new hash and clears both reset fields; every other case answers 400 `Invalid or expired token` and writes nothing |
| `AuthController.ResetPreservesValid` | src/controllers/authController.js:112-115 | redeeming keeps the collection invariant |
| `AuthController.RedeemIsSingleUse` | src/controllers/authController.js:103-115 | after a successful redeem, the same token fails at any time with any password, when no other account held it |
| `AuthController.RegisterThenForgot` | src/controllers/authController.js:75-97 | after registering a fresh account and asking a reset for its email, that account alone holds the grant, and the collection stays valid |
| `AuthController.RedeemThenLogin` | src/controllers/authController.js:99-121 | redeeming a token exactly one account holds, unexpired, answers 200; afterwards the new password logs in exactly when it and the email are non-empty, and the old one is refused |
| `AuthController.RecoveryScenario` | src/controllers/authController.js:75-121 | register, request a reset with a fresh token, redeem before expiry: from then on the new password logs in exactly when it is non-empty, and the old one is refused |
| `AuthController.StrictSchemaDropsResetGrant` | src/controllers/authController.js:84-85 | if only declared schema paths are written and the reset filter is kept as written (`strictQuery` off), the stored grant is lost and the following reset always answers 400 |
| `AuthController.ForgotPassword` | src/controllers/authController.js:75-97 | the handler takes exactly the reset-request step |
| `AuthController.ResetPassword` | src/controllers/authController.js:99-121 | the handler takes exactly the redeem step |
| `AuthController.LogoutStep` | src/controllers/authController.js:123-141 | logout fails only with 500 `Error logging out`, and then nothing is written |
| `AuthController.LogoutStamps` | src/controllers/authController.js:125-136 | with an attached account that is still stored, only its last connection changes, to `now`; with none, nothing is written; the cookie is cleared in both cases (an attached account that is no longer stored gets the 500 of the `AuthController.LogoutStep` row, and the cookie stays) |
| `AuthController.LogoutPreservesValid` | src/controllers/authController.js:126-130 | logout keeps the collection invariant |
| `AuthController.LogoutUser` | src/controllers/authController.js:123-141 | the handler takes exactly the logout step; on success it ends the session, on the 500 path `req.user` is untouched; cookie, header and `res.locals.user` are untouched |
| `AuthMiddleware.GatesComplementary` | src/middleware/authMiddleware.js:4-24 | every request passes exactly one of `ensureAuthenticated` and `forwardAuthenticated` |
| `AuthMiddleware.EnsureAuthenticated` | src/middleware/authMiddleware.js:4-13 | a request passes exactly when a user is attached to it (`req.user`: the session's, or the one `addUserToLocals` resolved from the `jwt` cookie); every other request is redirected to `/login` |
| `AuthMiddleware.ForwardAuthenticated` | src/middleware/authMiddleware.js:15-24 | a request passes exactly when no user is attached to it (no session user and none resolved from the `jwt` cookie by `addUserToLocals`); every other request is redirected to `/` |
| `AuthMiddleware.ResolveIdentity` | src/middleware/authMiddleware.js:31-54 | a session user always wins; without one, a non-empty cookie that verifies and names a stored id resolves to exactly that stored record, and no other case resolves to anyone |
| `AuthMiddleware.BadCookieIsAnonymous` | src/middleware/authMiddleware.js:37-50 | without a session, an invalid or expired cookie, or one naming a deleted account, resolves to no user rather than an error |
| `AuthMiddleware.LoginCookieResolves` | src/middleware/authMiddleware.js:34-42 | a one-hour cookie naming a stored id resolves to that account's current record before `iat + 3600` and to no user from then on, whatever the email and role in its claims |
| `AuthMiddleware.AddUserToLocals` | src/middleware/authMiddleware.js:26-56 | the middleware sets `res.locals.user` to the resolved identity and `req.user` to the same value, and always reaches `next()` |
| `AuthMiddleware.BearerToken` | src/middleware/authMiddleware.js:63 | a token read from the header is non-empty and contains no space |
| `AuthMiddleware.BearerTokenShape` | src/middleware/authMiddleware.js:63 | the header is a first word, a space, the token, then nothing or more words after a space |
| `AuthMiddleware.BearerTokenOf` | src/middleware/authMiddleware.js:63 | every header of that shape yields exactly that token |
| `AuthMiddleware.Authenticate` | src/middleware/authMiddleware.js:63-77 | a header token that verifies and names a stored id is accepted as exactly that stored record, and nothing else is accepted |
| `AuthMiddleware.LoginTokenAuthenticates` | src/middleware/authMiddleware.js:63-74 | `Bearer <one-hour token>` naming a stored id authenticates that account's current record before the hour is up, whatever the email and role in its claims |
| `AuthMiddleware.Auth` | src/middleware/authMiddleware.js:58-78 | every failure answers 401 `Unauthorized` and leaves `req.user` alone; success attaches exactly the stored record and calls `next()`; cookie, header and `res.locals.user` are untouched |
| `AuthMiddleware.Authorize` | src/middleware/authMiddleware.js:80-93 | no user gives 401; a user passes exactly when the role list is empty or holds the user's role name; every other user gets 403 |
| `AuthMiddleware.AuthorizeSingleRole` | src/middleware/authMiddleware.js:88-91 | a route limited to one role admits exactly the users holding that role |
| `AuthMiddleware.ExpiredCookieUnauthorized` | src/middleware/authMiddleware.js:85-87 | `authorize` placed directly after `addUserToLocals`, with no `auth` between them, answers 401 to a request with no session user and an expired login cookie; in the routes of src/app.js:93 and src/routers/carts.js:151 every `authorize` follows `auth`, which answers 401 itself without a valid bearer header |
| `JsBuiltins.Includes` | src/middleware/authMiddleware.js:88 | `includes` is true exactly when the element occurs in the list |
| `JsBuiltins.Every` | src/controllers/userController.js:44 | `every` is true exactly when the predicate holds of every element |
| `JsBuiltins.Split` | src/middleware/authMiddleware.js:63 | `split` gives at least one piece |
| `JsBuiltins.SplitPiecesLackSeparator` | src/middleware/authMiddleware.js:63 | no piece of a split contains the separator |
| `JsBuiltins.JoinSplit` | src/middleware/authMiddleware.js:63 | joining the pieces of a split with the separator gives the original string |
| `UserController.FileDocuments` | src/controllers/userController.js:17-20 | one document per uploaded file, in upload order, with the file's original name and stored path |
| `UserController.UploadStep` | src/controllers/userController.js:12-27 | the answer lists the documents exactly when the id is stored, and then it is the account's new list, longer by the number of files; an unknown id answers 404 and writes nothing |
| `UserController.UploadAppends` | src/controllers/userController.js:12-23 | an unknown id answers 404 and writes nothing; otherwise the old list is a prefix of the new one, the length grows by the number of files, and nothing else changes |
| `UserController.UploadPreservesValid` | src/controllers/userController.js:23-25 | uploading keeps the collection invariant |
| `UserController.DocumentNames` | src/controllers/userController.js:42 | the names of the documents, one per document, in order |
| `UserController.HasAllDocs` | src/controllers/userController.js:41-44 | true exactly when each of the three required names occurs among the document names |
| `UserController.PremiumStep` | src/controllers/userController.js:36-53 | an unknown id answers 404 and writes nothing; every answer other than 200 writes nothing; a 200 leaves the account `premium` |
| `UserController.PremiumExactlyWithDocs` | src/controllers/userController.js:36-51 | the upgrade happens exactly when `Identificación`, `Comprobante de domicilio` and `Comprobante de estado de cuenta` all occur; the role then becomes `premium`, whatever it was, `admin` included; otherwise the answer is 400 and nothing changes |
| `UserController.PremiumPreservesValid` | src/controllers/userController.js:50-51 | the upgrade keeps the collection invariant |
| `UserController.UploadKeepsEligibility` | src/controllers/userController.js:23-44 | an upload never makes an eligible account ineligible |
| `UserController.UploadRequiredThenPremium` | src/controllers/userController.js:17-51 | uploading the three required documents makes the upgrade succeed |
| `UserController.UploadUserDocuments` | src/controllers/userController.js:5-32 | the handler takes exactly the upload step |
| `UserController.ChangeUserToPremium` | src/controllers/userController.js:34-57 | the handler takes exactly the upgrade step |

## Left out

- Express wiring, route tables, views, the logger and socket.io: no logic of the core.
- Cart, product, ticket and purchase handlers: not part of this model.
- `loginUser` (a bare redirect) and the Passport plumbing: not modelled. The plumbing is `passport.authenticate`, `req.login`/`req.logout` internals, the session store and the cookie transport. Sessions appear only as `Request.user`, which the login, registration and logout methods set.
- bcrypt: hashing is an injective encoding; salting, cost, constant-time comparison and bcrypt's truncation of its input to 72 bytes are not modelled. Under truncation, two passwords sharing their first 72 bytes check against each other's hash, so where `AuthController.RedeemThenLogin` refuses the old password it relies on the injective encoding.
- JWT: signing is not modelled. The map of signed tokens stands for signature validity. Claims are read as the core reads them.
- Random reset tokens: the token is an input. Their uniqueness is a hypothesis where a lemma needs it.
- Nodemailer: sending is not modelled. The model keeps the message built and whether sending succeeded.
- Multer storage: only the uploaded files' `originalname` and `path` are kept. Its upload error (500) is not modelled.
- Store and network failures: not modelled. This covers a failed `findOne`/`save`, `req.login` errors, `next(err)`, and invalid-ObjectId cast errors on `:uid`. Request ids are modelled as already valid ids. In `addUserToLocals`, a failed `findById` ends, like a bad token, with no user; that path is not modelled either.
- Request bodies with missing fields (`undefined` in JavaScript): not modelled. Inputs are strings.
- Mongoose strict mode for undeclared paths: the model stores `githubId` and the reset fields as the controllers write them. Of what a strict schema does instead (see above), only the lost reset grant with `strictQuery` off is modelled.
- Mongoose validation on save: modelled only in registration, for the required `username`/`email` and the `rol` enum. The GitHub branch follows the controller (see Findings).
- The `NODE_ENV === 'test'` bypasses in the middleware: production behaviour only.
- Concurrency between requests: not modelled. Each handler is one atomic step, so the read-then-`updateOne` of the upload and the check-then-clear of a reset cannot interleave.
- Time units: one integer clock stands for both `Date.now()` (milliseconds) and JWT seconds.

## Findings

| source | as written | input that shows it | evidently intended | confidence | as-written member | corrected member |
|---|---|---|---|---|---|---|
| src/config/passport.js:37-45 | the schema marks `password` (and `email`) required, yet the GitHub callback creates accounts with `password: ''` (and possibly a null email); Mongoose's required check rejects an empty string, so the create branch cannot save | any GitHub profile with no linked account and no matching email | accounts without a local password, authenticated through their GitHub id | not executed; follows Mongoose's documented rule for required strings | `Passport.GithubRecordFailsSchema` | `Passport.LinkPreservesValid` |
| src/controllers/authController.js:84-85 | the schema declares no `resetPasswordToken`/`resetPasswordExpires`, so a strict schema writes neither; with `strictQuery` off the emailed token can then never be redeemed (with it on, the filter is emptied instead and the first account is reset) | `forgotPassword` for any existing email, then `resetPassword` with the mailed token before it expires | the grant is stored and redeemable once before expiry | not executed; assumes Mongoose's default strict mode with `strictQuery` off, whose default depends on the Mongoose version | `AuthController.StrictSchemaDropsResetGrant` | `AuthController.RecoveryScenario` |
