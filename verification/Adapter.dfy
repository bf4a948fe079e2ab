/** `sendRequest` as a whole: validate and build the payload, then run the
    attempts of `executeOnce` under `executeWithRetry`. The provider is the
    parameter `server`, which gives the outcome of the HTTP exchange of each
    attempt for the payload sent. */
module Adapter {
  import opened Wrappers
  import opened Failures
  import opened LanguageResolution
  import opened Requests
  import opened Responses
  import opened Retry

  /** The HTTP exchange of one attempt: the call itself fails with an I/O
      failure, or a response comes back. */
  datatype Exchange = CallFailed(message: string) | Answered(response: Response)

  /** One `executeOnce`. */
  function ExecuteOnce(exchange: Exchange, render: Json -> string): (r: Result<seq<string>, Failure>)
  {
    match exchange
    case CallFailed(message) => Failure(IoFailure(message))
    case Answered(response) => Classify(response, render)
  }

  /** The attempts of one request, numbered from 0. */
  function AttemptsFor(server: (Payload, nat) -> Exchange, payload: Payload, render: Json -> string): nat -> Result<seq<string>, Failure>
  {
    (i: nat) => ExecuteOnce(server(payload, i), render)
  }

  /** What one `sendRequest` did: its result, the payload it sent (none when
      validation refused the request), and its attempts and sleeps. */
  datatype SendRun = SendRun(result: Result<seq<string>, Failure>, payload: Option<Payload>, attempts: nat, sleeps: nat)

  /** A refused request is answered with its UNIMPLEMENTED status and no
      attempt; an accepted one sends its payload and behaves as
      `executeWithRetry` over the attempts. */
  method SendRequest(getLang: string -> string, config: Config, request: Request,
                     server: (Payload, nat) -> Exchange, render: Json -> string)
    returns (run: SendRun)
    ensures BuildPayload(getLang, config, request).Failure? ==>
              && run.result == Failure(BuildPayload(getLang, config, request).error)
              && run.result.error.StatusFailure? && run.result.error.status.Unimplemented?
              && run.payload.None? && run.attempts == 0 && run.sleeps == 0
    ensures BuildPayload(getLang, config, request).Success? ==>
              && run.payload == Some(BuildPayload(getLang, config, request).value)
              && IsRetryRun(RetryRun(run.result, run.attempts, run.sleeps), config.retryCount, config.retryDelayMs,
                            AttemptsFor(server, run.payload.value, render))
  {
    var built := BuildPayload(getLang, config, request);
    if built.Failure? {
      PayloadContents(getLang, config, request);
      return SendRun(Failure(built.error), None, 0, 0);
    }
    var payload := built.value;
    var retried := ExecuteWithRetry(config.retryCount, config.retryDelayMs, AttemptsFor(server, payload, render));
    run := SendRun(retried.result, Some(payload), retried.attempts, retried.sleeps);
  }

  /** A well-formed answer to the first attempt is returned as is, after one
      attempt and no sleep. */
  lemma FirstAnswerReturned(run: RetryRun<seq<string>>, config: Config, server: (Payload, nat) -> Exchange,
                            payload: Payload, render: Json -> string, outputs: seq<string>, code: int)
    requires IsRetryRun(run, config.retryCount, config.retryDelayMs, AttemptsFor(server, payload, render))
    requires IsSuccessful(code)
    requires server(payload, 0) == Answered(Response(code, Some(BodyText(Some(Encode(outputs))))))
    ensures run.result == Success(outputs) && run.attempts == 1 && run.sleeps == 0
  {
    ClassifyEncoded(outputs, code, render);
    assert AttemptsFor(server, payload, render)(0) == Success(outputs);
  }

  /** An answer with a non-success status ends the request at that attempt
      with UNAVAILABLE carrying the code: it is never retried. */
  lemma BadStatusNotRetried(run: RetryRun<seq<string>>, config: Config, server: (Payload, nat) -> Exchange,
                            payload: Payload, render: Json -> string, k: nat, response: Response)
    requires IsRetryRun(run, config.retryCount, config.retryDelayMs, AttemptsFor(server, payload, render))
    requires k < run.attempts && server(payload, k) == Answered(response) && !IsSuccessful(response.code)
    ensures run.attempts == k + 1
    ensures run.result == Failure(StatusFailure(Unavailable(BadStatusCode(response.code))))
  {
    var attempts := AttemptsFor(server, payload, render);
    assert attempts(k) == Failure(StatusFailure(Unavailable(BadStatusCode(response.code))));
    OtherFailureNotRetried(run, config.retryCount, config.retryDelayMs, attempts, k);
  }

  /** When every exchange fails at the call, a request with `retryCount`
      retries and a non-negative delay makes `retryCount + 1` attempts and
      rethrows the last failure. */
  lemma PersistentCallFailure(run: RetryRun<seq<string>>, retryCount: nat, retryDelayMs: int,
                              server: (Payload, nat) -> Exchange, payload: Payload, render: Json -> string)
    requires IsRetryRun(run, retryCount, retryDelayMs, AttemptsFor(server, payload, render))
    requires retryDelayMs >= 0 && forall i: nat :: server(payload, i).CallFailed?
    ensures run.attempts == retryCount + 1 && run.sleeps == retryCount
    ensures run.result == Failure(IoFailure(server(payload, retryCount).message))
  {
    var attempts := AttemptsFor(server, payload, render);
    forall i: nat | i <= retryCount ensures IsIoFailure(attempts(i)) {
      assert attempts(i) == Failure(IoFailure(server(payload, i).message));
    }
    ExhaustedRethrowsLast(run, retryCount, retryDelayMs, attempts);
  }
}
