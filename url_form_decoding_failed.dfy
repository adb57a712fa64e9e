/** Turns the URL-encoded form decoder's missing-key error into a fixed bad-request result. */
module URLFormDecodingFailed {
  import opened Wrappers
  import opened Http
  import opened ErrorResults

  /** The one reason this specialisation recognises, character for character. */
  const MissingStringReason := "Value of type 'String' required for key ''."

  /** The fixed message, spelling included. */
  const FormMessage := "Form deocding failed. Are you sure you have all the required key/value pairs?"

  /** `convert(error:on:)`: a result exactly for a `Debuggable` error with that reason. */
  function Convert(e: AppError): (r: Option<ErrorResult>)
    ensures r.Some? <==> e.DebuggableError? && e.reason == MissingStringReason
    ensures r.Some? ==> r.value == ErrorResult(FormMessage, BadRequest)
  {
    if e.DebuggableError? && e.reason == MissingStringReason then Some(ErrorResult(FormMessage, BadRequest)) else None
  }
}
