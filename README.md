# rust_api authentication and account core, in Dafny

This project models the part of the `rust_api` web service that decides
who a request comes from and what it may do to the `users` table:

- the authentication gate (`AuthMiddleware::call`) that lets registration
  and login through, attaches `user_email` / `user_clearance` headers for a
  request with a session identity, and answers every other request with a
  fixed 401 (`middleware.dfy`);
- the session identity, a JSON text `{"email":…,"clearance":…}` written
  at login and read back by every identity check (`identity_codec.dfy`,
  `session.dfy`, `access.dfy`);
- password hashing and verification and their error mapping
  (`hashing.dfy`);
- the error taxonomy, its HTTP status codes and display texts, and the
  conversions from database, token and blocking-pool errors (`errors.dfy`);
- the user records and their conversions (`models.dfy`);
- the `users` table operations: login lookup, registration, lookup by
  email or id, update of the caller's row, account removal, listing and
  the admin/normal switch (`store.dfy`); the table is a `UserStore` class
  whose methods are each proved equal to a specification function or a
  closed form over the table;
- the handlers of the controllers (`users_controller.dfy`,
  `user_controller.dfy`, `auth_controller.dfy`) and of the routes layer
  (`auth_routes.dfy`, `user_routes.dfy`), with `i64` parsing of path ids
  (`int_parse.dfy`).

External collaborators are parameters. The Argon2 library is a `Hasher`
value (two total functions whose `None` is a library error); its
properties are hypotheses `Sound` (a hash verifies against its own
password) and `Hides` (a hash is never the password itself), stated on the
lemmas that need them. The database is the `rows`/`nextId` state of
`UserStore`. The identity cookie is the `Session` object. The clock is a
`now` parameter. Whether the blocking thread pool cancels a query is a
`canceled` parameter. A handler in the controllers receives the
`(email, clearance)` pair its request headers carry as a parameter, since
the helper that reads them (`utils::parse_request`) is not part of this
model.

Three behaviours of the code are worth knowing when reading the model:
- an identity that does not read as a slim user, or whose email is not a
  legal header value, aborts the request in the gate (`Middleware.Gate`
  returns `Abort`) rather than being answered;
- at login, a verification error from the hashing library is treated as a
  wrong password and answered 401 (`Store.LoginDecision`);
- a request refused for lack of privilege is answered 401 (`GET /users`,
  `PATCH /users/{id}`) or 400 with "only admins can access this route"
  (`Access.IsAdmin`).

## Model

| member | source | states |
|---|---|---|
| Errors.StatusCode | src/errors.rs:32-41 | internal and token errors map to 500, BadRequest to 400, NotFound to 404, Unauthorized to 401, and only those |
| Errors.Display | src/errors.rs:10-22 | the display text starts with `BadRequest: ` exactly for BadRequest and then carries its detail |
| Errors.DisplayInjective | src/errors.rs:10-22 | different errors never display the same text |
| Errors.ErrorResponse | src/errors.rs:25-30 | the error answer has the error's status, never a success status, and the display text as a JSON string body |
| Errors.ErrorResponseInjective | src/errors.rs:25-41 | different errors never produce the same answer |
| Errors.ToHttp | src/errors.rs:25-30 | a handler result becomes its success answer or its error's answer |
| Errors.FromDbError | src/errors.rs:45-58 | a unique violation becomes BadRequest with the details text (else the message); every other database error is an internal error |
| Errors.FromJwtError | src/errors.rs:60-64 | every token error becomes the token error, answered with 500 |
| Errors.FromBlocking | src/routes/user.rs:24-27 | a canceled blocking query is an internal error; a finished one yields its own result |
| Models.ToSlim | src/models/user.rs:66-73 | the slim user keeps exactly the email and the clearance |
| Models.SlimDropsPrivateFields | src/models/user.rs:58-73 | rows differing only in id, name, password or date have the same slim form |
| Models.BuildChange | src/models/user.rs:13-23 | a row read back as a change carries its name and email and the masked password |
| Models.BuildChangeHidesPassword | src/models/user.rs:16-22 | the read-back change does not depend on the stored password |
| Models.FromDetails | src/models/user.rs:44-56 | the insert record carries the three given fields |
| Models.ApplyChange | src/models/user.rs:5-11 | a change overwrites exactly its present fields and keeps id, clearance and date |
| Models.SlimListJson | src/controllers/users.rs:29-30 | the listing is an array with one slim object per user, in order |
| IdentityCodec.EscapeChar | src/models/user.rs:59-63 | a character other than a quote, a backslash or a control character is written as itself; those are written as a backslash sequence of two or more characters |
| IdentityCodec.ParseString | src/utils.rs:49-59 | reading a JSON string consumes exactly the escaped text of the value it returns and its closing quote |
| IdentityCodec.Decode | src/utils.rs:49-59 | whatever decodes is the encoding of the decoded user |
| IdentityCodec.DecodeEncode | src/controllers/auth.rs:23-24 | the identity written at login decodes back to the same slim user |
| IdentityCodec.DecodeIffEncoded | src/routes/auth.rs:31-38 | a text decodes to a user exactly when it is that user's encoding |
| IdentityCodec.ParseEscaped | src/utils.rs:49-59 | reading the escape of any email followed by a quote gives back the email and the rest |
| Hashing.HashPassword | src/utils.rs:11-20 | a hashing failure is an internal error; success is the library's encoded hash |
| Hashing.VerifyHash | src/utils.rs:22-29 | a verification failure is Unauthorized; success is the library's answer |
| Hashing.VerifyOwnHash | src/utils.rs:11-29 | under a sound library, a password verifies against its own hash |
| Int64Parse.ParseI64 | src/controllers/users.rs:43-46 | a parsed id is within the `i64` range and the text is digits, or a `+` or `-` followed by digits; the empty text and a lone sign are refused |
| Int64Parse.ParseSignedDigits | src/controllers/users.rs:43-46 | every optional sign followed by digits (leading zeros, `+5`, `-0` included) parses to its signed value when in range and is refused otherwise |
| Int64Parse.ParsePrinted | src/controllers/user.rs:27-30 | every `i64` printed in decimal parses back to itself |
| Sessions.Session.Remember | src/controllers/auth.rs:23-24 | the session identity becomes the given text |
| Sessions.Session.Forget | src/controllers/auth.rs:10-13 | the session identity becomes absent |
| Access.IsAdmin | src/utils.rs:31-47 | no identity or an unreadable one is Unauthorized, a non-admin is BadRequest "only admins can access this route", and the only success is `true` |
| Access.GetLoggedUser | src/utils.rs:49-59 | no identity is Unauthorized, an unreadable one an internal error, and a success is the user the identity encodes |
| Access.ExtractLoggedUser | src/routes/auth.rs:25-40 | the extractor succeeds exactly on a readable identity, with the user it encodes, and is Unauthorized otherwise |
| Access.ExtractAgreesWithLoggedUser | src/routes/auth.rs:30-39 | the extractor and the logged-user lookup succeed on the same identities with the same user |
| Access.IsAdminOfIssued | src/utils.rs:31-47 | on an identity written at login the admin check succeeds exactly for an admin |
| Access.LoggedUserOfIssued | src/utils.rs:49-59 | on an identity written at login both lookups give back that user |
| Middleware.ClearanceValue | src/middlewares/auth.rs:71 | the clearance header reads `admin` for an admin and `non_admin` otherwise |
| Middleware.Gate | src/middlewares/auth.rs:56-95 | a request is forwarded exactly when it carries a readable, header-safe identity, or carries none and is allow-listed (an unreadable identity aborts even on registration and login); rejected with the fixed 401 exactly when neither allow-listed nor carrying an identity; aborted only with an identity |
| Middleware.Attached | src/middlewares/auth.rs:65-78 | with a readable, header-safe identity the email header is its email and the clearance header `ClearanceValue` of its flag, replacing any client value, and other headers stay; otherwise headers are unchanged |
| Middleware.Call | src/middlewares/auth.rs:56-95 | the decision is `Gate` and the request's new headers are `Attached` of the old ones |
| Middleware.IssuedIdentityPasses | src/middlewares/auth.rs:65-80 | an identity written at login for a user whose email is a legal header value passes on every route with that user's email and clearance headers |
| Middleware.ForwardedCarriesIdentity | src/middlewares/auth.rs:57-81 | a forwarded request that is not registration or login carries headers taken from its decoded identity |
| Store.LastMatch | src/models/dbmethods.rs:16 | the index picked is the last row matching the key, or none matches |
| Store.OnlyMatch | src/models/dbmethods.rs:16 | in a valid table the last row matching an email or id is the only one |
| Store.LastMatchAfterReplace | src/models/dbmethods.rs:16 | replacing a row by one that matches the key just as well keeps the last match |
| Store.LoginDecision | src/models/dbmethods.rs:10-24 | login succeeds exactly when the last row with the email exists and its hash verifies the password, with that row's slim form; otherwise Unauthorized |
| Store.UserStore.LoginUser | src/models/dbmethods.rs:10-24 | the store's login lookup is `LoginDecision` of its rows; the routes layer's login query (src/routes/auth.rs:86-101) has the same body |
| Store.WithoutEmail | src/models/dbmethods.rs:27-38 | the kept rows are no more than before, and all of them exactly when no row has the email |
| Store.WithoutEmailMembers | src/models/dbmethods.rs:30-32 | the kept rows are exactly the rows with another email |
| Store.WithoutEmailValid | src/models/dbmethods.rs:27-38 | removal keeps emails and ids unique and ids below the next id |
| Store.DeleteSpec | src/models/dbmethods.rs:27-38 | removal reports whether any row had the email, leaves no such row and keeps the next id and the table's invariant |
| Store.UserStore.DeleteAccount | src/models/dbmethods.rs:27-38 | the store loses exactly the rows with the email, and the result is `DeleteSpec`'s; the routes layer's copy (src/routes/user.rs:99-110) has the same body |
| Store.EmailTaken | src/errors.rs:48-52 | a duplicate email surfaces as BadRequest "Key (email)=(…) already exists." |
| Store.HashedChange | src/models/dbmethods.rs:46-49 | a change's password, when present, is replaced by its hash; a hashing failure is an internal error; the other fields are kept |
| Store.UpdateSpec | src/models/dbmethods.rs:40-57 | an update succeeds exactly when hashing succeeds, the change is not empty, a row has the caller's email and the new email is not another row's; a hashing error, an empty change or a missing row is an internal error and a taken email is BadRequest with the database's detail; a failed update changes nothing; a successful one changes only the caller's row, by exactly the hashed change, answers with the masked row and keeps the invariant |
| Store.UserStore.UserUpdate | src/models/dbmethods.rs:40-57 | the store and the result are `UpdateSpec`'s; the routes layer's copy (src/routes/user.rs:112-129) has the same body |
| Store.FindSpec | src/models/dbmethods.rs:59-75 | lookup succeeds exactly when some row matches, with the last match; otherwise NotFound |
| Store.UserStore.FindBy | src/models/dbmethods.rs:59-75 | the store's lookup is `FindSpec` of its rows |
| Store.ChangeSpec | src/models/dbmethods.rs:78-97 | switching fails exactly when no row has the id (an internal error, nothing changes); otherwise only that row's clearance flips and the message says which way |
| Store.ChangeTwiceRestores | src/models/dbmethods.rs:78-97 | two switches restore the table and report both directions |
| Store.UserStore.ChangeAccount | src/models/dbmethods.rs:78-97 | the store and the message are `ChangeSpec`'s |
| Store.UserStore.GetAllUsers | src/models/dbmethods.rs:99-104 | the listing has one slim user per row, in row order |
| Store.InsertSpec | src/models/dbmethods.rs:106-117 | registration fails with an internal error on a hashing error and with BadRequest "Key (email)=(…) already exists." on a taken email, and then changes nothing; otherwise it appends one row with the next id, the hash and the default clearance |
| Store.UserStore.InsertUser | src/models/dbmethods.rs:106-117 | the store and the result are `InsertSpec`'s |
| Store.InsertNeverStoresPlaintext | src/models/dbmethods.rs:108-110 | under a hiding library the stored password is never the plaintext |
| Store.InsertThenLogin | src/models/dbmethods.rs:10-24 | under a sound library a newly registered user can log in with the registered password |
| Store.DeleteThenLoginFails | src/models/dbmethods.rs:10-38 | after removal no login with that email succeeds |
| Store.UpdatePasswordThenLogin | src/models/dbmethods.rs:40-57 | under a sound library a password change lets the new password log in |
| UsersController.PostUser | src/controllers/users.rs:12-18 | registration answers 201 with the email exactly when `InsertSpec` succeeds, and otherwise its error: 500 on a hashing failure, 400 "Key (email)=(…) already exists." on a taken email |
| UsersController.GetUsers | src/controllers/users.rs:21-31 | the listing is refused with 401 exactly when the clearance is not `admin`, and the answer on the wire is then 401 and otherwise 200; otherwise every row's slim form, in order |
| UsersController.RefusedListingAndGateRejectionAre401 | src/controllers/users.rs:21-31 | a listing refused to a non-admin and a request the gate rejects for lack of an identity (src/middlewares/auth.rs:83-92) both answer 401, with different bodies |
| UsersController.ChangeTypeSpec | src/controllers/users.rs:34-49 | a refused request is 401, a malformed id 400 "invalid user id" and an id with no row an internal error (500), all changing nothing; success exactly when permitted with a valid id of an existing row, and then the table and the message are `ChangeSpec`'s for that id |
| UsersController.ChangeType | src/controllers/users.rs:43-48 | the store and the answer are `ChangeTypeSpec`'s |
| UsersController.ChangeAccountTypeAsWritten | src/controllers/users.rs:39-42 | permission is decided on the email slot |
| UsersController.ChangeAccountType | src/controllers/users.rs:34-49 | permission is decided on the clearance slot |
| UsersController.AsWrittenGateIsWrongSlot | src/controllers/users.rs:39-42 | as written, a non-admin whose email is `admin` is allowed and a real admin refused |
| UsersController.OnlyAdminsChangeAccountType | src/controllers/users.rs:25-28 | with the clearance check, only an admin request changes the table, and an admin's request for an existing id succeeds |
| UsersController.ChangeTypeTwiceRestores | src/controllers/users.rs:34-49 | two admin switches of an account restore the table |
| UserController.GetMe | src/controllers/user.rs:16-20 | the caller's profile exactly when a row has the caller's email, taken from the last such row; otherwise NotFound |
| UserController.GetUserById | src/controllers/user.rs:23-33 | a malformed id is 400 "invalid id"; success exactly when a row has the id, answered with the last such row's id and email; otherwise NotFound |
| UserController.UpdateUser | src/controllers/user.rs:36-48 | the store and the answer follow `UpdateSpec` for the caller, answering the masked change |
| UserController.RemoveAccount | src/controllers/user.rs:51-63 | always 200; the message says "account deleted successfully" exactly when a row had the caller's email |
| AuthController.Logout | src/controllers/auth.rs:10-13 | the session identity is cleared and the answer is an empty 200; the routes layer's logout (src/routes/auth.rs:54-57) has the same body |
| AuthController.Login | src/controllers/auth.rs:16-26 | success exactly when `LoginDecision` succeeds, and then the session holds that user's identity; on failure 401 and the session is untouched |
| AuthController.GetMe | src/controllers/auth.rs:29-31 | with a readable identity the answer is its email; otherwise 401; the routes layer's handler (src/routes/auth.rs:81-83) has the same body |
| AuthController.LoginThenGetMe | src/controllers/auth.rs:16-31 | after a login, `GET /auth` answers the email logged in with and the logged user is the stored user's slim form |
| AuthRoutes.Login | src/routes/auth.rs:60-78 | a canceled query is 500 and leaves the session; otherwise success exactly when `LoginDecision` succeeds, then the session holds that user's identity; any failure leaves the session |
| UserRoutes.FindUser | src/routes/user.rs:131-147 | lookup succeeds exactly as `FindSpec` does, with the same user; a missing user is Unauthorized |
| UserRoutes.GetMe | src/routes/user.rs:16-29 | the logged-user lookup's error comes first; then a canceled query is 500; success exactly when the logged user is stored, answered with its profile; otherwise 401 |
| UserRoutes.GetUserById | src/routes/user.rs:31-50 | a malformed id is 400 "invalid id", then a canceled query 500; success exactly when a row has the id; otherwise 401 |
| UserRoutes.UpdateUser | src/routes/user.rs:52-72 | without a logged user nothing changes; with one, a change carrying a password clears the session whatever the update's outcome; a canceled query is 500 and changes nothing; otherwise the table, the success and the error are `UpdateSpec`'s |
| UserRoutes.RemoveAccount | src/routes/user.rs:74-97 | without a logged user or when canceled nothing changes; otherwise the table follows `DeleteSpec` and the session is cleared exactly when a row was removed |

## Left out

- Argon2 itself (salt, secret key, cost parameters, encoded hash format): the library is the `Hasher` parameter; its soundness and hiding are hypotheses, not proved.
- IdentityCodec.Decode: accepts only the exact text the encoder writes (key order, no whitespace, lowercase `\u00xx` escapes); JSON parsing also accepts reordered keys, whitespace, other escapes and extra fields, which the model reads as undecodable. Every identity the service itself writes is covered.
- The identity cookie's signing, `max_age` of 86400 seconds, domain and secure flag, and how actix finds the cookie: a `Session` holds the identity text directly.
- Database connection failures and the panics of `pool.get().unwrap()`: the table is always reachable, so `GetAllUsers`, `DeleteAccount`, `FindBy` and `LoginUser` never report a database error.
- The column defaults of the `users` table (serial id, clearance `false`, creation time) are not shown in the source; the model assumes ids count up from 1, clearance defaults to `false` and the time is the `now` parameter.
- Store.InsertSpec: a refused registration keeps `nextId`; a database serial sequence uses up a value even when the insert then fails on the unique email constraint, so later ids can have gaps the model does not show.
- The unique constraint on emails: the model refuses a duplicate email with the database's unique-violation message; uniqueness of ids and emails is a proved invariant of the table, not a schema.
- Store.UserStore.UserUpdate: writes the change to the last row with the caller's email only; the database would write every such row, which differs only if the uniqueness invariant is broken (`Store.OnlyMatch`: in a valid table the last match is the only one).
- `utils::parse_request` is not part of this model: controller handlers take the `(email, clearance)` pair as a parameter, so the link from the gate's headers to that pair is not proved.
- JSON web tokens: `Claims` and token issuance are not in the core files; only the error conversion `FromJwtError` is modelled.
- `test_raw` / `RawUser` and `test_route` (raw SQL demonstration) and the 404 fallback page.
- Route registration (`users_route_config`, `auth_route_config`), the server setup in `main.rs`, request logging and `dbg!` output; in `main.rs` the gate is not installed, only in the integration test's app.
- Canceled blocking queries: the model assumes a canceled query did not run, so nothing in the table changes.
- Header names and header maps: the gate's headers are a map from name to one value; case-insensitive names and repeated headers are not modelled.
- Asynchronous execution and concurrency between requests: each handler runs atomically on the store.

## Findings

| source | as written | input that shows it | evidently intended | confidence | as-written member | corrected member |
|---|---|---|---|---|---|---|
| src/controllers/users.rs:39-42 | `PATCH /users/{id}` binds the first slot of the parsed `(email, clearance)` pair and compares it with `admin`, i.e. it compares the caller's email | a registered non-admin with email `admin` (clearance header `non_admin`) switches any existing account, including promoting itself; a real admin with email `root@example.com` is refused with 401 | compare the clearance slot, as `GET /users` does at src/controllers/users.rs:25-28 | not executed; follows from the tuple order used by `get_users` and `update_user` | UsersController.ChangeAccountTypeAsWritten | UsersController.ChangeAccountType |
