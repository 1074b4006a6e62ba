/** Shared vocabulary of every service: optional values, the typed errors the
    services raise, and JavaScript's truthiness of optional string fields. */
module Outcomes {

  /** An absent, `null` or `undefined` value is `None`. */
  datatype Option<+T> = None | Some(value: T) {

    /** The value, or `default` when absent (JavaScript's `x ?? default`). */
    function GetOr(default: T): T {
      match this
      case Some(v) => v
      case None => default
    }
  }

  /** The HTTP exception class a service throws, by status. `Internal` is a
      write the database rejected (an unhandled driver error, status 500). */
  datatype ErrorKind =
    | BadRequest    // 400
    | Unauthorized  // 401
    | Forbidden     // 403
    | NotFound      // 404
    | Conflict      // 409
    | Internal      // 500

  /** The cause of an exception, one constructor per failure cause, so that
      two failures of the same kind stay distinguishable. */
  datatype Reason =
    | EmailInUse
    | UsernameInUse
    | UserNotFound
    | VerificationRequired
    | AlreadyVerified
    | MissingEmail
    | InvalidToken
    | SelfFollow
    | FollowTargetNotFound
    | AlreadyFollowing
    | NotFollowing
    | PhotoNotFound
    | NotPhotoOwner
    | AlreadyLiked
    | NotLiked
    | UniqueViolation
    | NotNullViolation
    | ProviderError(message: string)

  datatype Error = Error(kind: ErrorKind, reason: Reason)

  datatype Result<+T> = Ok(value: T) | Err(error: Error)

  /** JavaScript truthiness of an optional string: absent and `""` are falsy. */
  predicate Truthy(s: Option<string>) {
    s.Some? && s.value != ""
  }

  /** The JavaScript chain `c[0] || c[1] || ... || fallback` over optional
      strings: the first truthy candidate, else the fallback. */
  function FirstTruthy(candidates: seq<Option<string>>, fallback: string): (r: string)
    ensures (forall i :: 0 <= i < |candidates| ==> !Truthy(candidates[i])) ==> r == fallback
    ensures forall i ::
              (0 <= i < |candidates| && Truthy(candidates[i])
               && forall j :: 0 <= j < i ==> !Truthy(candidates[j]))
              ==> r == candidates[i].value
  {
    if |candidates| == 0 then fallback
    else if Truthy(candidates[0]) then candidates[0].value
    else FirstTruthy(candidates[1..], fallback)
  }
}
