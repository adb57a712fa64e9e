/** Errors that reach the API error middleware and the results its specialisations produce. */
module ErrorResults {
  import opened Http

  /** One element of a decoding coding path. */
  datatype CodingKey = CodingKey(stringValue: string)

  /** The errors the specialisations tell apart: a decoding type mismatch (the expected type's
      name and the coding path), any other error conforming to `Debuggable` (its reason), and
      every other error. */
  datatype AppError =
    | TypeMismatch(typeName: string, codingPath: seq<CodingKey>)
    | DebuggableError(reason: string)
    | OtherError

  datatype ErrorResult = ErrorResult(message: string, status: Status)
}
