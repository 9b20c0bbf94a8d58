/**
 * The signup and login handlers. Each takes the request body, the server's
 * signing key and the clock, reads or writes the `users` collection, and
 * produces one response: a status code, a JSON body and at most one cookie.
 */
module AuthController {
  import opened Basics
  import opened Bcrypt
  import opened Jwt
  import opened SecretToken
  import opened UserModel

  /** `res.cookie(name, value, { withCredentials, httpOnly })`. */
  datatype Cookie = Cookie(name: string, value: Token, withCredentials: bool, httpOnly: bool)

  /** The JSON body; an absent property is not sent at all. */
  datatype Body = Body(message: string, success: Option<bool>, user: Option<UserRecord>)

  /** A response: `res.json` without `res.status` sends 200. */
  datatype Response = Response(status: nat, body: Body, cookie: Option<Cookie>)

  /** The login request body `{ email, password }`. */
  datatype LoginBody = LoginBody(email: Option<string>, password: Option<string>)

  /** A response and the collection after the handler ran. */
  datatype Exchange = Exchange(response: Response, store: StoreState)

  /** What the `catch` blocks send. */
  const ServerError: Response := Response(500, Body("Internal server error", Some(false), None), None)

  /** `createdAt || Date.now()`: an absent or zero timestamp is replaced by the clock. */
  function CreatedAtOrNow(createdAt: Option<int>, nowMs: nat): (r: int)
    ensures r == nowMs || Some(r) == createdAt
    ensures r != 0 || nowMs == 0
    ensures createdAt.Some? && createdAt.value != 0 ==> r == createdAt.value
  {
    if createdAt.Some? && createdAt.value != 0 then createdAt.value else nowMs
  }

  /** The fields `SignUp` hands to `User.create`. */
  function CreateFields(body: UserFields, nowMs: nat): UserFields
  {
    body.(createdAt := Some(CreatedAtOrNow(body.createdAt, nowMs)))
  }

  /**
   * `SignUp` as a function of the collection before the request. The clock is
   * read twice: `nowMs` for `createdAt || Date.now()`, and `signMs` later by
   * `jwt.sign`, after the password has been hashed.
   */
  function SignUpExchange(st: StoreState, key: string, body: UserFields, nowMs: nat, signMs: nat): Exchange
  {
    if FindOne(st.docs, body.email).Some? then
      Exchange(Response(400, Body("User already exists", None, None), None), st)
    else
      var c := CreateSpec(st, CreateFields(body, nowMs), nowMs);
      if c.result.Failure? then Exchange(ServerError, c.store)
      else
        var user := c.result.value;
        var token := CreateSecretToken(user.id, key, signMs);
        if token.None? then Exchange(ServerError, c.store)
        else
          Exchange(Response(201, Body("User created successfully", Some(true), Some(user)),
                            Some(Cookie("token", token.value, true, true))),
                   c.store)
  }

  /** `Login` as a function of the collection; it never writes it. */
  function LoginResponse(docs: seq<UserRecord>, key: string, body: LoginBody, nowMs: nat): Response
  {
    if !Present(body.email) || !Present(body.password) then
      Response(200, Body("All fields are required", None, None), None)
    else
      var user := FindByEmail(docs, body.email.value);
      if user.None? then Response(200, Body("Incorrect password or email", None, None), None)
      else if !Compare(body.password.value, user.value.password) then
        Response(200, Body("Incorrect password or email", None, None), None)
      else
        var token := CreateSecretToken(user.value.id, key, nowMs);
        if token.None? then ServerError
        else Response(201, Body("User logged in successfully", Some(true), None),
                      Some(Cookie("token", token.value, true, false)))
  }

  /** The body fields make a record the schema accepts. */
  ghost predicate Acceptable(body: UserFields)
  {
    && body.email.Some? && RegexAccepts(body.email.value)
    && body.password.Some? && Utf16Length(body.password.value) >= 6
    && Present(body.username)
  }

  // ---------------------------------------------------------------------
  // SignUp
  // ---------------------------------------------------------------------

  /** A registered email gets 400 'User already exists', no cookie, and the collection is untouched. */
  lemma SignUpExistingEmail(st: StoreState, key: string, body: UserFields, nowMs: nat, signMs: nat)
    requires body.email.Some? && FindByEmail(st.docs, body.email.value).Some?
    ensures SignUpExchange(st, key, body, nowMs, signMs) ==
      Exchange(Response(400, Body("User already exists", None, None), None), st)
  {
  }

  /**
   * SignUp answers 201 exactly when the email is new, the fields pass the
   * schema and the key is set. It then adds exactly one record with the given
   * email and username, the hashed password, the request's non-zero
   * `createdAt` or else the clock, and a fresh id; sets the httpOnly `token`
   * cookie for that id, issued at the second the signing clock reads; and
   * returns the record in the body.
   */
  lemma SignUpCreates(st: StoreState, key: string, body: UserFields, nowMs: nat, signMs: nat)
    requires StoreValid(st)
    ensures var e := SignUpExchange(st, key, body, nowMs, signMs);
      && (e.response.status == 201 <==> FindOne(st.docs, body.email).None? && Acceptable(body) && key != "")
      && (e.response.status == 201 ==>
          var rec := UserRecord(st.nextId, body.email.value, Hashed(Plain(body.password.value), 12),
                                body.username.value, CreatedAtOrNow(body.createdAt, nowMs));
          && e.store.docs == st.docs + [rec]
          && e.response == Response(201, Body("User created successfully", Some(true), Some(rec)),
               Some(Cookie("token", Signed(Claims(rec.id, signMs / 1000, signMs / 1000 + 259200), key), true, true))))
  {
    var f := CreateFields(body, nowMs);
    ValidateAccepts(f);
    CreateOutcome(st, f, nowMs);
  }

  /**
   * The 400 is given exactly for a registered email; every other failure is
   * the catch-all 500. No failure sets a cookie. With the key set a failure
   * leaves the documents as they were; with an unset key, fields the schema
   * accepts are saved before signing throws.
   */
  lemma SignUpFails(st: StoreState, key: string, body: UserFields, nowMs: nat, signMs: nat)
    requires StoreValid(st)
    ensures var e := SignUpExchange(st, key, body, nowMs, signMs);
      && (e.response.status == 400 <==> FindOne(st.docs, body.email).Some?)
      && (FindOne(st.docs, body.email).None? && e.response.status != 201 ==> e.response == ServerError)
      && (e.response.status != 201 ==> e.response.cookie.None?)
      && (e.response.status != 201 && key != "" ==> e.store.docs == st.docs)
      && (key == "" && FindOne(st.docs, body.email).None? && Acceptable(body) ==>
          e.response == ServerError && |e.store.docs| == |st.docs| + 1)
  {
    var f := CreateFields(body, nowMs);
    ValidateAccepts(f);
    CreateOutcome(st, f, nowMs);
  }

  /**
   * SignUp has no field check of its own: a missing email, password or
   * username fails schema validation and ends in the generic 500.
   */
  lemma SignUpMissingField(st: StoreState, key: string, body: UserFields, nowMs: nat, signMs: nat)
    requires StoreValid(st) && FindOne(st.docs, body.email).None?
    requires !Present(body.email) || !Present(body.password) || !Present(body.username)
    ensures SignUpExchange(st, key, body, nowMs, signMs).response ==
      Response(500, Body("Internal server error", Some(false), None), None)
    ensures SignUpExchange(st, key, body, nowMs, signMs).store.docs == st.docs
  {
    var f := CreateFields(body, nowMs);
    MissingFieldReported(f);
    CreateOutcome(st, f, nowMs);
  }

  /** SignUp keeps the collection's indexes and id counter consistent. */
  lemma SignUpKeepsStoreValid(st: StoreState, key: string, body: UserFields, nowMs: nat, signMs: nat)
    requires StoreValid(st)
    ensures StoreValid(SignUpExchange(st, key, body, nowMs, signMs).store)
  {
    CreateOutcome(st, CreateFields(body, nowMs), nowMs);
  }

  // ---------------------------------------------------------------------
  // Login
  // ---------------------------------------------------------------------

  /** A missing email or password is answered before the collection is consulted. */
  lemma LoginMissingFields(docs: seq<UserRecord>, other: seq<UserRecord>, key: string, body: LoginBody, nowMs: nat)
    requires !Present(body.email) || !Present(body.password)
    ensures LoginResponse(docs, key, body, nowMs) == Response(200, Body("All fields are required", None, None), None)
    ensures LoginResponse(docs, key, body, nowMs) == LoginResponse(other, key, body, nowMs)
  {
  }

  /**
   * An unknown email and a wrong password get one and the same response:
   * 200 'Incorrect password or email', with no `success` field and no cookie.
   */
  lemma LoginRejects(docs: seq<UserRecord>, key: string, body: LoginBody, nowMs: nat)
    requires Present(body.email) && Present(body.password)
    requires var u := FindByEmail(docs, body.email.value);
      u.None? || !Compare(body.password.value, u.value.password)
    ensures LoginResponse(docs, key, body, nowMs) == Response(200, Body("Incorrect password or email", None, None), None)
  {
  }

  /**
   * Login answers 201 exactly when both fields are given, the email is
   * registered, the password verifies against the stored hash and the key
   * is set; the `token` cookie for that user's id is then not httpOnly.
   */
  lemma LoginSucceeds(docs: seq<UserRecord>, key: string, body: LoginBody, nowMs: nat)
    ensures var r := LoginResponse(docs, key, body, nowMs);
      && (r.status == 201 <==>
          && Present(body.email) && Present(body.password)
          && FindByEmail(docs, body.email.value).Some?
          && Compare(body.password.value, FindByEmail(docs, body.email.value).value.password)
          && key != "")
      && (r.status == 201 ==>
          && r.body == Body("User logged in successfully", Some(true), None)
          && r.cookie.Some? && r.cookie.value.name == "token" && !r.cookie.value.httpOnly
          && r.cookie.value.value.Signed? && r.cookie.value.value.key == key
          && r.cookie.value.value.claims.id == FindByEmail(docs, body.email.value).value.id)
      && (r.status != 201 ==> r.cookie.None?)
  {
  }

  // ---------------------------------------------------------------------
  // The handlers, step by step
  // ---------------------------------------------------------------------

  /** `SignUp(req, res)` against the collection object, with the two clock readings. */
  method SignUp(users: UserCollection, key: string, body: UserFields, nowMs: nat, signMs: nat) returns (resp: Response)
    requires users.Valid()
    modifies users
    ensures users.Valid()
    ensures Exchange(resp, users.State()) == SignUpExchange(old(users.State()), key, body, nowMs, signMs)
  {
    var existing := FindOne(users.docs, body.email);
    if existing.Some? {
      return Response(400, Body("User already exists", None, None), None);
    }
    var created := Create(users, CreateFields(body, nowMs), nowMs);
    if created.Failure? {
      return ServerError;
    }
    var user := created.value;
    var token := CreateSecretToken(user.id, key, signMs);
    if token.None? {
      return ServerError;
    }
    var cookie := Cookie("token", token.value, true, true);
    resp := Response(201, Body("User created successfully", Some(true), Some(user)), Some(cookie));
  }

  /** `Login(req, res)`: it only reads the collection. */
  method Login(users: UserCollection, key: string, body: LoginBody, nowMs: nat) returns (resp: Response)
    ensures resp == LoginResponse(users.docs, key, body, nowMs)
  {
    if !Present(body.email) || !Present(body.password) {
      return Response(200, Body("All fields are required", None, None), None);
    }
    var user := FindByEmail(users.docs, body.email.value);
    if user.None? {
      return Response(200, Body("Incorrect password or email", None, None), None);
    }
    var auth := Compare(body.password.value, user.value.password);
    if !auth {
      return Response(200, Body("Incorrect password or email", None, None), None);
    }
    var token := CreateSecretToken(user.value.id, key, nowMs);
    if token.None? {
      return ServerError;
    }
    var cookie := Cookie("token", token.value, true, false);
    resp := Response(201, Body("User logged in successfully", Some(true), None), Some(cookie));
  }
}
