/** Values shared by the server's controllers: optional request fields,
    results, and the `ApiError` the controllers throw. */
module Api {

  datatype Option<+T> = None | Some(value: T)

  datatype Result<+T, +E> = Success(value: T) | Failure(error: E)

  /** An error thrown by a controller. `ApiError(status, message)` is the
      usual form. `StatusIsText` is the one call site that passes a message
      where the status code belongs (user.controller.js:214). */
  datatype ApiError =
    | ApiError(status: int, message: string)
    | StatusIsText(statusArgument: string)

  /** JavaScript truthiness of a request field that is either a string or
      absent: `undefined` and the empty string are falsy. */
  predicate Truthy(v: Option<string>) {
    v.Some? && v.value != ""
  }

  /** What `RegExp.prototype.test` sees: an absent field is converted to
      the string "undefined" before matching. */
  function JsString(v: Option<string>): string {
    if v.Some? then v.value else "undefined"
  }
}
