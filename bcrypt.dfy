/**
 * The password-hashing library, as an abstract one-way function.
 * Salting, timing and the real cost of a round are not modelled: a hash
 * records what it was computed from and at which cost factor, and
 * comparison succeeds exactly when the stored value is a hash of the
 * plain-text password offered.
 */
module Bcrypt {
  import opened Basics

  /** A password as a user document holds it: plain text, or a hash of another secret. */
  datatype Secret = Plain(text: string) | Hashed(source: Secret, cost: nat)

  /** Every bcrypt hash is a 60-character string. */
  const HashTextLength: nat := 60

  /**
   * JavaScript length of the string a document's password field holds: the
   * plain text's UTF-16 length, or the 60 characters of a hash string, which
   * is what the schema's minimum length checks once the hook has run.
   */
  function TextLength(s: Secret): nat
  {
    match s
    case Plain(t) => Utf16Length(t)
    case Hashed(_, _) => HashTextLength
  }

  /** `bcrypt.hash(s, cost)`. */
  function Hash(s: Secret, cost: nat): (h: Secret)
    ensures forall p :: h != Plain(p)
    ensures TextLength(h) == HashTextLength
    ensures s.Plain? ==> forall p :: Compare(p, h) <==> s == Plain(p)
  {
    Hashed(s, cost)
  }

  /** `bcrypt.compare(p, h)`: h is a hash of the plain-text password p. */
  predicate Compare(p: string, h: Secret)
    ensures Compare(p, h) ==> forall q :: h != Plain(q)
  {
    h.Hashed? && h.source == Plain(p)
  }

  /** A hash of the hash of a password no longer verifies that password. */
  lemma RehashVerifiesNothing(p: string, c1: nat, c2: nat)
    ensures !Compare(p, Hash(Hash(Plain(p), c1), c2))
  {
  }
}
