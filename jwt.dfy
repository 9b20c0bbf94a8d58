/**
 * The JSON Web Token library, as an abstract signer and verifier.
 * A token is the claims it carries and the key it was signed with; a
 * cookie value that is not a well-formed token is `Garbled`. Signature
 * checking is a key comparison; expiry uses whole seconds of the clock.
 */
module Jwt {
  import opened Basics

  /** The payload `{ id, iat, exp }`; `iat` and `exp` are in seconds. */
  datatype Claims = Claims(id: UserId, iat: nat, exp: nat)

  /** A cookie value: a token signed with `key`, or any other string. */
  datatype Token = Signed(claims: Claims, key: string) | Garbled(text: string)

  /** `Math.floor(Date.now() / 1000)` for a millisecond clock reading. */
  function Seconds(nowMs: nat): nat
  {
    nowMs / 1000
  }

  /** `jwt.sign({ id }, key, { expiresIn })`: fails when the key is empty or unset. */
  function Sign(id: UserId, key: string, nowMs: nat, expiresIn: nat): (r: Option<Token>)
    ensures r.None? <==> key == ""
    ensures r.Some? ==> r.value.Signed? && r.value.key == key && r.value.claims.id == id
    ensures r.Some? ==> r.value.claims.iat == Seconds(nowMs) && r.value.claims.exp == r.value.claims.iat + expiresIn
  {
    if key == "" then None
    else Some(Signed(Claims(id, Seconds(nowMs), Seconds(nowMs) + expiresIn), key))
  }

  /**
   * `jwt.verify(token, key, callback)`: the claims, or None for every error
   * the callback receives (no key, malformed, wrong signature, expired:
   * expired once the current second reaches `exp`).
   */
  function Verify(t: Token, key: string, nowMs: nat): (r: Option<Claims>)
    ensures r.Some? <==> key != "" && t.Signed? && t.key == key && Seconds(nowMs) < t.claims.exp
    ensures r.Some? ==> r.value == t.claims
  {
    if key == "" then None
    else match t
      case Garbled(_) => None
      case Signed(c, k) => if k == key && Seconds(nowMs) < c.exp then Some(c) else None
  }
}
