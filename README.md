# JWT cookie authentication, modelled in Dafny

This project models the authentication core of a small Express/React app.

- **Server.** The `User` schema's validators and `pre('save')` password-hashing hook; `createSecretToken`; the `SignUp` and `Login` handlers; and the `userVerification` session check.
- **Client.** The state machines of the `Home`, `Login` and `Signup` pages.

The libraries are abstract collaborators:

- **bcrypt.** `Hashed(source, cost)` records what was hashed. `compare(p, h)` holds exactly when `h` is a hash of the plain text `p`. A hash has no string value of its own (see Left out).
- **jsonwebtoken.** A token is its claims `{id, iat, exp}` together with the key that signed it. A cookie value that is not a token is `Garbled`. `verify` accepts a token when its key matches and the current second is before `exp`.
- **mongoose.** The `users` collection is a sequence of records in insertion order plus an id counter. `findOne` returns the first match. The unique indexes on `_id` and `email` are the invariant `Unique`.
- **The clock, the key and the network.** The clock (`Date.now()` in milliseconds) and the signing key (`TOKEN_KEY`; `""` means unset) are parameters. SignUp reads the clock twice: `nowMs` for `createdAt || Date.now()`, and `signMs` later, when `jwt.sign` stamps `iat` after the password was hashed. The client's network replies are parameters too.
- **String lengths.** A JavaScript `.length` counts UTF-16 code units, so the password minimum is checked on `Utf16Length`, where a character above U+FFFF counts twice.

Files, one module each:

- `basics.dfy`: Option, Result, user ids.
- `bcrypt.dfy`, `jwt.dfy`: the two libraries.
- `secret_token.dfy`: token issuance.
- `user_model.dfy`: the schema, the email pattern, the collection, the document and its save hook.
- `auth_controller.dfy`: SignUp and Login, each as a pure function of the collection and as a step-by-step method over the collection object.
- `auth_middleware.dfy`: session verification.
- `end_to_end.dfy`: signup followed by verification or login.
- `client_common.dfy`, `home_page.dfy`, `login_page.dfy`, `signup_page.dfy`: the client.

Session verification is a function with no store output. Two calls with the same cookie, clock and collection therefore give the same answer by construction.

Behaviours of the code a reader may not expect:

- The duplicate-email response of SignUp is `400 {message: 'User already exists'}` with no `success` field.
- SignUp has no missing-field check of its own: when the email is not yet registered, a missing field fails schema validation and ends in the catch-all 500. A registered email gets the 400 first.
- Login answers 201 on success, 200 on every rejection, and 500 when signing the token throws (an unset key).
- The login cookie is not httpOnly.
- Logout only navigates; it clears no cookie.
- The password is hashed by the save hook, on every save.

## Model

| member | source | states |
|---|---|---|
| `Bcrypt.Hash` | server/Models/UserModel.js:43 | a hash is never plain text and has the 60-character length of a bcrypt string; a hash of a plain-text password verifies exactly that password |
| `Bcrypt.RehashVerifiesNothing` | server/Models/UserModel.js:42-45 | hashing the hash of a password again leaves a value that no longer verifies that password |
| `Bcrypt.Compare` | server/Controllers/AuthController.js:80 | a stored value that is plain text never verifies any password |
| `Jwt.Sign` | server/util/SecretToken.js:17-19 | signing fails exactly when the key is unset; otherwise the token carries the id, the key, `iat` = the clock's second and `exp` = `iat` + `expiresIn` |
| `Jwt.Verify` | server/Middlewares/AuthMiddleware.js:27-29 | verification yields the token's claims exactly when the key is set, the token is well formed and signed with that key, and the current second is before `exp`; otherwise it fails |
| `Basics.Utf16Length` | server/Models/UserModel.js:26 | a string's JavaScript length lies between its character count and twice that, is 0 exactly for the empty string, and equals the character count when no character is above U+FFFF |
| `SecretToken.CreateSecretToken` | server/util/SecretToken.js:16-20 | the token carries exactly the given id, is signed with the given key, has `iat` = the clock's second and `exp` = `iat` + 259200; it fails only for an unset key |
| `SecretToken.VerifyIssuedToken` | server/util/SecretToken.js:17-18 | a token verified with the key it was signed with yields back the issued id exactly while the current second is before issuance + 3 days |
| `SecretToken.OtherKeyRejects` | server/Middlewares/AuthMiddleware.js:27-29 | a token signed with one key never verifies under another |
| `SecretToken.ExpiryBoundary` | server/util/SecretToken.js:18 | verified 3 days − 1 s after issuance the token is accepted; at 3 days or 3 days + 1 s it is rejected |
| `UserModel.FindByEmail` | server/Controllers/AuthController.js:26 | the result, if any, is a stored record with that email; none is returned exactly when no record has it |
| `UserModel.FindById` | server/Middlewares/AuthMiddleware.js:32 | the result, if any, is a stored record with that id; none is returned exactly when no record has it |
| `UserModel.InsertKeepsUnique` | server/Models/UserModel.js:20 | inserting a record whose email and id are both free keeps emails and ids unique |
| `UserModel.EmailsAreUnique` | server/Models/UserModel.js:20 | in a valid collection two distinct ids never resolve to records with the same email |
| `UserModel.FindAppended` | server/Models/UserModel.js:20 | after appending a record with a fresh email and id, lookups of that id and that email find it |
| `UserModel.MatchesEmail` | server/Models/UserModel.js:21 | a string the executable email check accepts has at least 5 characters |
| `UserModel.MatchesEmailIffRegex` | server/Models/UserModel.js:21 | the executable email check accepts exactly the strings in which the unanchored pattern `.+@.+\..+` matches a line-terminator-free substring x@y.z with x, y, z non-empty |
| `UserModel.ValidateOnePerPath` | server/Models/UserModel.js:16-31 | no two reported errors belong to the same path (email, password, username): each path reports at most its first failing validator |
| `UserModel.Validate` | server/Models/UserModel.js:16-31 | at most three errors, one list over the three paths; no error means the email and username are non-empty and the password is present and at least 6 long |
| `UserModel.ValidateAccepts` | server/Models/UserModel.js:16-31 | validation passes exactly when the email matches the pattern, the password is at least 6 UTF-16 code units long and the username is non-empty |
| `UserModel.MissingFieldReported` | server/Models/UserModel.js:17-31 | a missing or empty email, password or username is reported with its own 'X is required' message, and a present one is not |
| `UserModel.ShortPasswordRejected` | server/Models/UserModel.js:26 | a password of 1 to 5 UTF-16 code units fails with 'Password must be at least 6 characters long' |
| `UserModel.PasswordLengthInCodeUnits` | server/Models/UserModel.js:26 | three emoji (six code units) pass the minimum length; five ordinary characters do not |
| `UserModel.DefaultCreatedAt` | server/Models/UserModel.js:32-35 | a supplied `createdAt` is kept; an absent one becomes the current time |
| `UserModel.CreateOutcome` | server/Models/UserModel.js:16-45 | create succeeds exactly when validation passes and the email is free. It then appends exactly one record: the given email and username, one hash of the password at cost 12, the supplied `createdAt` or else now, and the next id. On failure no record is added. The collection stays valid. |
| `UserModel.CreateHashesOnce` | server/Models/UserModel.js:42-45 | the stored password is never plain text and verifies the given password and no other |
| `UserModel.UserDocument.constructor` | server/Models/UserModel.js:32-35 | a new document holds the given fields, the password as plain text, and `createdAt` defaulted to now when absent |
| `UserModel.UserDocument.PreSave` | server/Models/UserModel.js:42-45 | the hook replaces the password with its hash at cost 12, with no "modified" guard; it fails on an undefined password; nothing else changes |
| `UserModel.UserDocument.Save` | server/Models/UserModel.js:16-45 | failed validation throws with every path's error and leaves the password and collection unchanged. Otherwise the password is hashed once and the record is inserted, or a duplicate key is thrown when the indexes refuse it. |
| `UserModel.UserCollection.FreshId` | server/Controllers/AuthController.js:32 | the id handed out is the counter's value, no stored record has it, the counter moves past it, and the collection stays valid |
| `UserModel.UserCollection.Insert` | server/Models/UserModel.js:20 | the insert succeeds exactly when neither the email nor the id is taken, appends just that record, and keeps the collection valid |
| `UserModel.Create` | server/Controllers/AuthController.js:32-37 | `User.create` updates the collection and returns exactly what `CreateSpec` describes |
| `UserModel.SecondSaveRehashes` | server/Models/UserModel.js:42-45 | running the hook on the same document twice stores hash(hash(p)), which no longer verifies p |
| `AuthController.CreatedAtOrNow` | server/Controllers/AuthController.js:36 | the result is the request's `createdAt` when that is present and non-zero, and otherwise the clock; it is never a falsy 0 unless the clock reads 0 |
| `AuthController.SignUpExistingEmail` | server/Controllers/AuthController.js:26-29 | an email already registered gets 400 'User already exists' with no success field and no cookie; the collection is unchanged |
| `AuthController.SignUpCreates` | server/Controllers/AuthController.js:32-49 | 201 exactly when the email is new, the fields pass the schema and the key is set. Then exactly one record is added: the given email and username, the hashed password, a non-zero request `createdAt` or else the first clock reading, and a fresh id. The httpOnly `token` cookie is for that id and is stamped with the second clock reading, and the body is `{message: 'User created successfully', success: true, user}`. |
| `AuthController.SignUpFails` | server/Controllers/AuthController.js:26-54 | 400 comes exactly for a registered email; every other failure is `500 {message: 'Internal server error', success: false}`; no failure sets a cookie; with the key set a failure adds no record, and with an unset key fields the schema accepts are saved before the 500 |
| `AuthController.SignUpMissingField` | server/Controllers/AuthController.js:21-54 | with no field check of its own, a missing email, password or username ends in the generic 500 when the email is not yet registered, and no record is added |
| `AuthController.SignUpKeepsStoreValid` | server/Controllers/AuthController.js:26-37 | SignUp keeps emails and ids unique |
| `AuthController.LoginMissingFields` | server/Controllers/AuthController.js:69-71 | an empty or missing email or password gets 'All fields are required', whatever the collection holds |
| `AuthController.LoginRejects` | server/Controllers/AuthController.js:74-83 | an unknown email and a wrong password get the identical response `200 {message: 'Incorrect password or email'}`, with no success field and no cookie |
| `AuthController.LoginSucceeds` | server/Controllers/AuthController.js:86-94 | 201 `{message: 'User logged in successfully', success: true}` exactly when both fields are given, the email is registered, the password verifies and the key is set. The `token` cookie is then not httpOnly and carries that user's id; no other outcome sets a cookie. |
| `AuthController.SignUp` | server/Controllers/AuthController.js:21-55 | the handler's response and the collection afterwards are those of `SignUpExchange`, and the collection stays valid |
| `AuthController.Login` | server/Controllers/AuthController.js:64-100 | the handler's response is that of `LoginResponse`; it has no write access to the collection |
| `AuthMiddleware.UserVerification` | server/Middlewares/AuthMiddleware.js:18-40 | `user` is present exactly when status is true; no token means false; a true status needs a cookie that verifies under the key and a stored record with the token's id, whose username is the `user` |
| `AuthMiddleware.NoTokenIgnoresStore` | server/Middlewares/AuthMiddleware.js:19-24 | with no cookie or an empty one the answer is `{status: false}`, whatever the collection holds |
| `AuthMiddleware.BadTokenRejected` | server/Middlewares/AuthMiddleware.js:27-29 | a malformed, wrongly keyed or expired token, or a check with no key, gets `{status: false}`, whatever the collection holds |
| `AuthMiddleware.UnknownUserRejected` | server/Middlewares/AuthMiddleware.js:32-37 | a valid token whose id has no record gets `{status: false}` |
| `AuthMiddleware.StatusIff` | server/Middlewares/AuthMiddleware.js:18-40 | status is true exactly when a token is present, verifies and names a stored id; `user` is present exactly then, and is that record's username |
| `EndToEnd.SignUpFindable` | server/Controllers/AuthController.js:32-37 | after a 201 signup the new record is what lookups by its id and its email find |
| `EndToEnd.SignUpThenVerify` | server/Middlewares/AuthMiddleware.js:18-40 | the signup cookie gives `{status: true, user: username}` before its expiry second, counted from the signing clock reading, and `{status: false}` from then on |
| `EndToEnd.SignUpThenLogin` | server/Controllers/AuthController.js:64-94 | after signup, logging in with the same credentials gives 201 with a token for the new id; any other non-empty password gets the generic rejection |
| `EndToEnd.SignUpTwice` | server/Controllers/AuthController.js:26-29 | a second signup with the same email returns 400 and changes nothing |
| `HomePage.Home.constructor` | client/src/pages/Home.jsx:21-22 | the page starts loading, with an empty username and nothing shown or scheduled |
| `HomePage.Home.Render` | client/src/pages/Home.jsx:87-98 | the page shows "Loading..." exactly while loading, and otherwise the welcome line with the current username |
| `HomePage.Home.VerifyCookie` | client/src/pages/Home.jsx:40-73 | every outcome ends loading. `status: true` stores the user and schedules nothing. `status: false` shows 'Session expired. Please login again.' and a request error shows 'Authentication failed. Please login again.'; either schedules '/login' after 1000 ms. |
| `HomePage.Home.Logout` | client/src/pages/Home.jsx:83-85 | logout only navigates to '/login': no state, toast, timer or cookie changes |
| `HomePage.MountAndVerify` | client/src/pages/Home.jsx:21-98 | the page shows "Loading..." first. A valid session then shows the welcome view with the server's username. Otherwise it shows the welcome view with an empty name and one pending '/login' redirect. |
| `LoginPage.Login.constructor` | client/src/pages/Login.jsx:23-26 | the form starts with empty email and password |
| `LoginPage.Login.HandleOnChange` | client/src/pages/Login.jsx:34-40 | only the named field takes the new value; the other is unchanged |
| `LoginPage.Login.HandleSubmit` | client/src/pages/Login.jsx:61-93 | the current form is sent. A truthy success shows the message and schedules '/' after 1000 ms. A falsy one shows the server's message as an error, and a request error shows 'Login failed. Please try again.'; neither navigates. Email and password are empty afterwards. |
| `LoginPage.TypeAndSubmit` | client/src/pages/Login.jsx:23-93 | both typed values reach the request; the reply decides the single toast; only success schedules navigation home; the form ends empty |
| `SignupPage.Signup.constructor` | client/src/pages/Signup.jsx:23-27 | the form starts with empty email, password and username |
| `SignupPage.Signup.HandleOnChange` | client/src/pages/Signup.jsx:35-41 | only the named field takes the new value; the other two are unchanged |
| `SignupPage.Signup.HandleSubmit` | client/src/pages/Signup.jsx:62-95 | the current form is sent. A truthy success shows the message and schedules '/' after 1000 ms. A falsy one shows the server's message as an error, and a request error shows 'Signup failed. Please try again.'; neither navigates. All three fields are empty afterwards. |
| `SignupPage.TypeAndSubmit` | client/src/pages/Signup.jsx:23-95 | all three typed values reach the request; the reply decides the single toast; only success schedules navigation home; the form ends empty |

## Left out

- bcrypt internals are left out: salting, the cost of a round, timing, and input truncation at 72 bytes. A hash is a constructor that records its source.
- Bcrypt.Hash / Bcrypt.RehashVerifiesNothing: a hash has no string value in the model. bcrypt.compare accepts the inner hash's 60-character text against a double hash; in the model a double hash verifies nothing, and the hash string a 201 body's `user` exposes is not modelled.
- jsonwebtoken cryptography and encoding are left out. A signature check is a key comparison, and a malformed cookie is a single `Garbled` case.
- mongoose persistence is left out: the connection, I/O failures, index builds and the uniqueness race between concurrent signups. The catch-all 500 for a failed lookup is therefore not reachable in the model.
- How mongoose casts a filter with an undefined email is left out. `findOne({email: undefined})` is taken to match nothing, so a SignUp without an email reaches validation.
- JSON bodies whose fields are not strings are left out, and so is mongoose's type casting of them; fields are optional strings, `createdAt` an optional integer.
- A `createdAt` outside JavaScript's Date range (beyond ±8.64e15 ms) fails mongoose's Date cast and ends in the 500; the model accepts every integer.
- Re-saving an existing document through mongoose's update path is left out, because the handlers never do it. The missing "modified" guard is shown on the hook itself (`SecondSaveRehashes`).
- ObjectId generation is a counter of the collection (`FreshId`); ids are consumed even when a save fails.
- A token whose id is not a valid ObjectId makes `findById` throw inside the verify callback, leaving the request unanswered. The model cannot produce such a token, so this path is left out.
- server/index.js (Express setup, CORS, cookie parsing, DB connection, `listen`) and server/Routes/AuthRoute.js (three path-to-handler entries) are wiring and are not part of this model. So are the `next()` calls after a response is sent.
- The HTTP client's mapping of error statuses to exceptions is left out. A page receives an abstract outcome: a reply with a truthy or falsy `success` and its message, or a request error. Whether, for example, the 400 duplicate reply lands in Signup's `catch` is a property of that library.
- UI and runtime plumbing are left out: JSX markup, toast presentation and `ToastContainer`, console logging, and real timer firing. A redirect is a pending `Timer(1000, path)`, and `Logout` records its navigation.
- client/src/index.js, App.js, pages/index.js, App.test.js and config/constants.js are render and route setup and are not part of this model. The route paths and the 1000 ms delay appear as literal constants.
