/**
 * `userVerification`: the session check behind `POST /`. It reads the
 * `token` cookie, verifies it with the server's key and the clock, looks
 * the token's id up, and answers `{ status }`, with the username only when
 * the id belongs to a user.
 */
module AuthMiddleware {
  import opened Basics
  import opened Jwt
  import opened UserModel

  /** `{ status: false }` or `{ status: true, user: username }`. */
  datatype VerifyResponse = VerifyResponse(status: bool, user: Option<string>)

  /** `!token`: no cookie, or an empty cookie value. */
  predicate NoToken(cookie: Option<Token>)
  {
    cookie.None? || cookie.value == Garbled("")
  }

  /** The answer `userVerification` sends for a cookie, a key, the clock and the collection. */
  function UserVerification(cookie: Option<Token>, key: string, nowMs: nat, docs: seq<UserRecord>): (r: VerifyResponse)
    ensures r.user.Some? <==> r.status
    ensures NoToken(cookie) ==> !r.status
    ensures r.status ==> cookie.Some? && cookie.value.Signed? && Verify(cookie.value, key, nowMs) == Some(cookie.value.claims)
    ensures r.status ==> exists i :: 0 <= i < |docs| && docs[i].id == cookie.value.claims.id && r.user == Some(docs[i].username)
  {
    if NoToken(cookie) then VerifyResponse(false, None)
    else
      var data := Verify(cookie.value, key, nowMs);
      if data.None? then VerifyResponse(false, None)
      else
        var user := FindById(docs, data.value.id);
        if user.Some? then VerifyResponse(true, Some(user.value.username))
        else VerifyResponse(false, None)
  }

  /** Without a token the answer is `{ status: false }` whatever the collection holds. */
  lemma NoTokenIgnoresStore(cookie: Option<Token>, key: string, nowMs: nat, docs: seq<UserRecord>, other: seq<UserRecord>)
    requires NoToken(cookie)
    ensures UserVerification(cookie, key, nowMs, docs) == VerifyResponse(false, None)
    ensures UserVerification(cookie, key, nowMs, docs) == UserVerification(cookie, key, nowMs, other)
  {
  }

  /**
   * A token that fails verification (malformed, signed with another key,
   * expired, or checked with no key) gets `{ status: false }`, whatever the
   * collection holds.
   */
  lemma BadTokenRejected(t: Token, key: string, nowMs: nat, docs: seq<UserRecord>, other: seq<UserRecord>)
    requires t.Garbled? || key == "" || t.key != key || nowMs / 1000 >= t.claims.exp
    ensures UserVerification(Some(t), key, nowMs, docs) == VerifyResponse(false, None)
    ensures UserVerification(Some(t), key, nowMs, docs) == UserVerification(Some(t), key, nowMs, other)
  {
  }

  /** A valid token whose id has no user record gets `{ status: false }`. */
  lemma UnknownUserRejected(t: Token, key: string, nowMs: nat, docs: seq<UserRecord>)
    requires Verify(t, key, nowMs).Some?
    requires forall i | 0 <= i < |docs| :: docs[i].id != t.claims.id
    ensures UserVerification(Some(t), key, nowMs, docs) == VerifyResponse(false, None)
  {
  }

  /**
   * `status` is true exactly when a token is present, verifies, and its id
   * names a user; then, and only then, `user` is that user's username.
   */
  lemma StatusIff(cookie: Option<Token>, key: string, nowMs: nat, docs: seq<UserRecord>)
    ensures var r := UserVerification(cookie, key, nowMs, docs);
      && (r.status <==>
          && cookie.Some? && cookie.value != Garbled("")
          && cookie.value.Signed? && key != "" && cookie.value.key == key
          && nowMs / 1000 < cookie.value.claims.exp
          && exists i :: 0 <= i < |docs| && docs[i].id == cookie.value.claims.id)
      && (r.user.Some? <==> r.status)
      && (r.status ==> exists i :: 0 <= i < |docs| && docs[i].id == cookie.value.claims.id && r.user == Some(docs[i].username))
      && (r.status && Unique(docs) ==>
          forall i | 0 <= i < |docs| && docs[i].id == cookie.value.claims.id :: r.user == Some(docs[i].username))
  {
    var r := UserVerification(cookie, key, nowMs, docs);
    if r.status {
      var u := FindById(docs, cookie.value.claims.id).value;
      var k :| 0 <= k < |docs| && docs[k] == u;
      if Unique(docs) {
        forall i | 0 <= i < |docs| && docs[i].id == cookie.value.claims.id
          ensures r.user == Some(docs[i].username)
        {
          assert i == k;
        }
      }
    }
  }
}
