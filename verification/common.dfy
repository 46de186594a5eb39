/** Small shared types: an optional value and an HTTP reply. */
module Common {

  /** The conventional Some/None datatype, standing for `T | null | undefined`. */
  datatype Option<+T> = None | Some(value: T) {

    /** The value, or `default` when there is none (JavaScript's `??`). */
    function GetOr(default: T): T {
      match this
      case Some(v) => v
      case None => default
    }
  }

  /** What a request handler answers: a JSON body, or an HTTP error with its
      status and message ("" where the handler gives no message). A thrown
      exception that nothing catches surfaces as `Error(500, "")`. */
  datatype Reply<+T> = Json(body: T) | Error(status: int, message: string)

  /** What reading a request body yields: the parsed value, or
      `Unparsable` when `request.json()` (or `request.formData()`) rejects
      because the body is not in that format. Nothing catches the rejection,
      so the handler answers 500 with whatever it had already written. */
  datatype Parsed<+T> = Unparsable | Parsed(value: T)

  /** The body `{ success: true }` and, for page actions, the empty success. */
  datatype Done = Done

  const InternalError: int := 500
  const BadRequest: int := 400
  const Unauthorized: int := 401
}
