/** The failures the scheduling service reports to its callers, one per response the handlers can give
    besides success. HTTP status codes and message texts are not modelled. */
module Errors {

  /** Why a request did not get past the credential check or the authentication gate. */
  datatype AuthFailure =
    | BadCredentials   // login: no user has this username and password
    | MissingToken     // gate: no (or an empty) authorization header
    | MalformedHeader  // gate: the header has no second space-separated word
    | InvalidToken     // gate: the token's user id names no known user

  datatype Error =
    | Unauthenticated(why: AuthFailure)
    | RoomNotFound
    | InvalidRange
    | Conflict
    | NotFound
    | Forbidden
}
