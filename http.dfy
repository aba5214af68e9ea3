/**
 * The pieces every handler shares: an optional request-body field, the
 * JSON reply a handler sends (a status code with data, or a status code with
 * an error message), and JavaScript's truthiness test on a body string.
 */
module Http {

  /** A user's id, as the authentication middleware attaches it to a request. */
  type UserId = nat

  datatype Option<+T> = None | Some(value: T)

  /** What a handler answers: `{ success: true, data }` with its status, or
      the error envelope `{ success: false, error }` built from an error
      response carrying a message and a status. */
  datatype Reply<+T> = Success(status: nat, data: T) | Failure(status: nat, message: string)

  /** `!field` is false: the field was sent and is not the empty string
      (undefined and "" are the falsy strings). */
  predicate Filled(field: Option<string>)
  {
    field.Some? && field.value != ""
  }
}
