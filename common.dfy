/** Shared vocabulary of the account servers: optional values, the outcome
    of an HTTP handler, and the "first element satisfying a predicate" search
    that both `Array.prototype.find` and a SQL `rows[0]` stand for. */
module Common {

  datatype Option<+T> = None | Some(value: T)

  /** The HTTP statuses the handlers answer with on failure. */
  datatype Status =
    | BadRequest        // 400
    | Unauthorized      // 401
    | Forbidden         // 403
    | NotFound          // 404
    | TooManyRequests   // 429
    | ServerError       // 500

  /** Why a handler failed: one constructor per distinct error message. */
  datatype Why =
    | MissingFields
    | ShortPassword
    | LongNickname
    | EmailTaken
    | NicknameTaken
    | UsernameTaken
    | UnknownUser
    | WrongPassword
    | Banned
    | HwidMismatch
    | NoAccess
    | BadRole
    | AdminTarget
    | Suspicious
    | TooFast
    | UnusualBehavior
    | TooManyRegistrations
    | InvalidCredentials
    | NoToken
    | InvalidToken
    | BadQuery            // the database refused a parameter (NaN, out of range)

  /** What a handler answers: a JSON success body, an error, or (in the
      hybrid server without a database) no answer at all. */
  datatype Reply<+T> = Ok(value: T) | Fail(status: Status, why: Why) | Silent

  /** Index of the first element of `s` satisfying `p`, if any. */
  function FirstIndex<T>(s: seq<T>, p: T -> bool): (r: Option<nat>)
    ensures r.Some? ==> r.value < |s| && p(s[r.value])
    ensures r.Some? ==> forall j :: 0 <= j < r.value ==> !p(s[j])
    ensures r.None? <==> forall j :: 0 <= j < |s| ==> !p(s[j])
  {
    if |s| == 0 then None
    else if p(s[0]) then Some(0)
    else match FirstIndex(s[1..], p)
      case None => None
      case Some(k) => Some(k + 1)
  }
}
