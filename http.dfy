/** What a request handler answers: a status code with a body, or an `HTTPException`. */
module Http {
  /** An `HTTPException`: status code, `detail` text and extra response headers. */
  datatype HttpError = HttpError(status: int, detail: string, headers: seq<(string, string)>)

  datatype Result<+T> =
    | Ok(status: int, value: T)
    | Err(error: HttpError)
      /** An exception the handler does not catch; the framework answers 500 for it. */
    | Unhandled(exception: string)
}
