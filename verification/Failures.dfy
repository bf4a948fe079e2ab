/** The exceptions that leave `sendRequest` and its attempts: the gRPC
    statuses the adapter raises itself, I/O failures of the HTTP exchange,
    and the runtime exceptions that a malformed answer or a negative retry
    delay provoke. */
module Failures {
  import opened Wrappers

  /** Which language of a request could not be resolved. */
  datatype Role = SourceLanguage | TargetLanguage

  /** Why an answer of the provider was refused. */
  datatype UnavailableReason =
    | BadStatusCode(code: int)
    | InvalidTranslations

  /** The gRPC statuses raised by the adapter (`Status.…asRuntimeException()`),
      with what their descriptions report. */
  datatype Status =
    | Unimplemented(role: Role, language: Option<string>)
    | Unavailable(reason: UnavailableReason)

  /** Runtime exceptions that are neither an I/O failure nor a status: the
      body does not parse or is not a JSON object (for a top-level array this
      is the model's simplification of Gson's map reading), an item of
      `translations` is not an object (a failed cast), or `Thread.sleep` is
      given a negative delay. */
  datatype UnexpectedKind = MalformedBody | MalformedItem | NegativeDelay

  datatype Failure =
    | IoFailure(message: string)
    | StatusFailure(status: Status)
    | Unexpected(kind: UnexpectedKind)

  /** Only `IOException` is caught by the retry loop. */
  predicate IsRetryable(f: Failure)
  {
    f.IoFailure?
  }
}
