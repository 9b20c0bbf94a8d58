/** `createSecretToken`: the session token issued at signup and login. */
module SecretToken {
  import opened Basics
  import opened Jwt

  /** Token lifetime: three days, in seconds. */
  const ExpiresIn: nat := 3 * 24 * 60 * 60

  /**
   * Signs `{ id }` with the server's key; the token expires 259200 seconds
   * after the second it was issued in. Only an empty key makes it fail.
   */
  function CreateSecretToken(id: UserId, key: string, nowMs: nat): (t: Option<Token>)
    ensures t.Some? <==> key != ""
    ensures t.Some? ==> t.value.Signed? && t.value.key == key
    ensures t.Some? ==> t.value.claims.id == id
    ensures t.Some? ==> t.value.claims.iat == nowMs / 1000
    ensures t.Some? ==> t.value.claims.exp == t.value.claims.iat + 259200
  {
    Sign(id, key, nowMs, ExpiresIn)
  }

  /**
   * A token verified with the key it was issued under yields back the issued
   * id exactly while the clock's second is before issuance + 259200 seconds.
   */
  lemma VerifyIssuedToken(id: UserId, key: string, issuedMs: nat, nowMs: nat)
    requires key != ""
    ensures var c := Verify(CreateSecretToken(id, key, issuedMs).value, key, nowMs);
      && (c.Some? <==> nowMs / 1000 < issuedMs / 1000 + ExpiresIn)
      && (c.Some? ==> c.value.id == id)
  {
  }

  /** A token is rejected under any other key, whatever the clock. */
  lemma OtherKeyRejects(id: UserId, key: string, other: string, issuedMs: nat, nowMs: nat)
    requires key != "" && other != key
    ensures Verify(CreateSecretToken(id, key, issuedMs).value, other, nowMs).None?
  {
  }

  /**
   * The expiry boundary: verified one second short of three days after
   * issuance the token is accepted, one second past it (or at it) rejected.
   */
  lemma ExpiryBoundary(id: UserId, key: string, issuedMs: nat)
    requires key != ""
    ensures Verify(CreateSecretToken(id, key, issuedMs).value, key, issuedMs + (ExpiresIn - 1) * 1000).Some?
    ensures Verify(CreateSecretToken(id, key, issuedMs).value, key, issuedMs + ExpiresIn * 1000).None?
    ensures Verify(CreateSecretToken(id, key, issuedMs).value, key, issuedMs + (ExpiresIn + 1) * 1000).None?
  {
  }
}
