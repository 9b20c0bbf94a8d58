/** Value types shared by the server and client models. */
module Basics {

  /** A value that may be absent: an `undefined` property of a JSON body, a missing cookie. */
  datatype Option<T> = None | Some(value: T)

  /** The outcome of a step that can throw: its value, or the error it throws. */
  datatype Result<T, E> = Success(value: T) | Failure(error: E)

  /** The identifier the database gives a user document (its `_id`). */
  type UserId = nat

  /** JavaScript truthiness of an optional string: absent and "" are falsy. */
  predicate Present(s: Option<string>)
  {
    s.Some? && s.value != ""
  }

  /**
   * JavaScript's `.length` of a string: UTF-16 code units, so a character
   * outside the Basic Multilingual Plane (above U+FFFF) counts twice.
   */
  function Utf16Length(s: string): (n: nat)
    ensures |s| <= n <= 2 * |s|
    ensures n == 0 <==> s == []
    ensures (forall k | 0 <= k < |s| :: s[k] as int <= 0xFFFF) ==> n == |s|
  {
    if s == [] then 0
    else (if s[0] as int > 0xFFFF then 2 else 1) + Utf16Length(s[1..])
  }
}
