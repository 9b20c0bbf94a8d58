/**
 * The protocol across handlers: what a successful signup leads to when its
 * cookie is presented to the session check, and when its credentials are
 * used to log in.
 */
module EndToEnd {
  import opened Basics
  import opened Bcrypt
  import opened SecretToken
  import opened UserModel
  import opened AuthController
  import opened AuthMiddleware

  /** The record a successful signup appends. */
  function SignedUp(st: StoreState, body: UserFields, nowMs: nat): UserRecord
    requires body.email.Some? && body.password.Some? && body.username.Some?
  {
    UserRecord(st.nextId, body.email.value, Hashed(Plain(body.password.value), 12),
               body.username.value, CreatedAtOrNow(body.createdAt, nowMs))
  }

  /** After a 201 signup the new record is what lookups by its id and email find. */
  lemma SignUpFindable(st: StoreState, key: string, body: UserFields, nowMs: nat, signMs: nat)
    requires StoreValid(st) && SignUpExchange(st, key, body, nowMs, signMs).response.status == 201
    ensures body.email.Some? && body.password.Some? && body.username.Some?
    ensures var e := SignUpExchange(st, key, body, nowMs, signMs);
      && FindById(e.store.docs, st.nextId) == Some(SignedUp(st, body, nowMs))
      && FindByEmail(e.store.docs, body.email.value) == Some(SignedUp(st, body, nowMs))
  {
    SignUpCreates(st, key, body, nowMs, signMs);
    var rec := SignedUp(st, body, nowMs);
    assert FindById(st.docs, rec.id).None?;
    FindAppended(st.docs, rec);
  }

  /**
   * Presenting the signup cookie to the session check before it expires
   * yields `{ status: true, user: username }`; from its expiry second on,
   * `{ status: false }`. Expiry counts from the signing clock's reading.
   */
  lemma SignUpThenVerify(st: StoreState, key: string, body: UserFields, nowMs: nat, signMs: nat, laterMs: nat)
    requires StoreValid(st) && SignUpExchange(st, key, body, nowMs, signMs).response.status == 201
    ensures body.username.Some?
    ensures var e := SignUpExchange(st, key, body, nowMs, signMs);
      var r := UserVerification(Some(e.response.cookie.value.value), key, laterMs, e.store.docs);
      && (laterMs / 1000 < signMs / 1000 + ExpiresIn ==> r == VerifyResponse(true, Some(body.username.value)))
      && (laterMs / 1000 >= signMs / 1000 + ExpiresIn ==> r == VerifyResponse(false, None))
  {
    SignUpCreates(st, key, body, nowMs, signMs);
    SignUpFindable(st, key, body, nowMs, signMs);
  }

  /**
   * Logging in with the credentials just registered succeeds and issues a
   * token for the new record; any other non-empty password gets the generic
   * rejection.
   */
  lemma SignUpThenLogin(st: StoreState, key: string, body: UserFields, nowMs: nat, signMs: nat, loginMs: nat, wrong: string)
    requires StoreValid(st) && SignUpExchange(st, key, body, nowMs, signMs).response.status == 201
    requires body.password.Some? && wrong != "" && wrong != body.password.value
    ensures var docs := SignUpExchange(st, key, body, nowMs, signMs).store.docs;
      var r := LoginResponse(docs, key, LoginBody(body.email, body.password), loginMs);
      r.status == 201 && r.cookie.Some? && r.cookie.value.value.claims.id == st.nextId
    ensures var docs := SignUpExchange(st, key, body, nowMs, signMs).store.docs;
      LoginResponse(docs, key, LoginBody(body.email, Some(wrong)), loginMs) ==
        Response(200, Body("Incorrect password or email", None, None), None)
  {
    SignUpCreates(st, key, body, nowMs, signMs);
    SignUpFindable(st, key, body, nowMs, signMs);
    var docs := SignUpExchange(st, key, body, nowMs, signMs).store.docs;
    LoginSucceeds(docs, key, LoginBody(body.email, body.password), loginMs);
  }

  /** A second signup with the same email is refused and changes nothing. */
  lemma SignUpTwice(st: StoreState, key: string, body: UserFields, again: UserFields, m1: nat, s1: nat, m2: nat, s2: nat)
    requires StoreValid(st) && SignUpExchange(st, key, body, m1, s1).response.status == 201
    requires again.email == body.email
    ensures var st' := SignUpExchange(st, key, body, m1, s1).store;
      SignUpExchange(st', key, again, m2, s2) == Exchange(Response(400, Body("User already exists", None, None), None), st')
  {
    SignUpFindable(st, key, body, m1, s1);
  }
}
