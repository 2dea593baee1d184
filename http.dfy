/** Vocabulary shared by the HTTP route handlers: optional JSON fields, the
    JavaScript truthiness tests the handlers apply to them, JSON responses
    with their status codes, and the error texts common to every route. */
module Http {

  /** A field of a parsed JSON body: `None` stands for both an absent key and
      an explicit `null`, which the handlers never tell apart. */
  datatype Option<+T> = None | Some(value: T)

  /** The identity the session lookup yields for an authenticated caller. */
  type UserId = string

  /** A JSON response body: an `{ error }` object or a route-specific payload. */
  datatype Body<T> = Error(message: string) | Json(payload: T)

  datatype Response<T> = Response(status: nat, body: Body<T>)

  /** `c.json(payload)`: status 200 unless another is given. */
  function Ok<T>(payload: T): Response<T> {
    Response(200, Json(payload))
  }

  /** `c.json({ error: message }, status)`. */
  function Fail<T>(status: nat, message: string): Response<T> {
    Response(status, Error(message))
  }

  const AuthenticationRequired := "Authentication required"
  const UserNotFound := "User not found"

  /** `!!s` for a string field: absent, `null` and `""` are falsy. */
  predicate TruthyString(s: Option<string>) {
    s.Some? && s.value != ""
  }

  /** `!!n` for an integral number field: absent, `null` and `0` are falsy. */
  predicate TruthyNumber(n: Option<int>) {
    n.Some? && n.value != 0
  }

  /** `s.startsWith(prefix)`. JavaScript compares UTF-16 code units; for the
      ASCII prefixes used here that agrees with comparing characters. */
  predicate StartsWith(s: string, prefix: string) {
    |prefix| <= |s| && s[..|prefix|] == prefix
  }

  /** A string starts with `prefix` exactly when it is `prefix` followed by
      something: the two directions of the `startsWith` test. */
  lemma StartsWithIff(s: string, prefix: string)
    ensures StartsWith(prefix + s, prefix)
    ensures StartsWith(s, prefix) ==> s == prefix + s[|prefix|..]
  {
  }
}
