/** What both executors share: how an operation is submitted, identified, retried and reported. */
module Operations {

  /** Scope, name and key of a submission; an empty key asks for no idempotency. */
  datatype Triple = Triple(scope: string, name: string, key: string)

  /** A keyed submission and the id it was answered with. */
  datatype Answer = Answer(triple: Triple, id: string)

  datatype RetryPolicy = RetryPolicy(maxAttempts: int, initialBackoff: int, maxBackoff: int) // nanoseconds

  /** How the context of a handler call ended. */
  datatype ContextEnd = Live | Canceled | DeadlineExceeded

  /** The error of an operation as its submitter sees it. */
  datatype OperationError = OperationError(code: string, message: string)

  /** An error is never published with an empty code or message. */
  function Published(e: OperationError): OperationError {
    OperationError(if e.code == "" then "operation_failed" else e.code,
                   if e.message == "" then "The operation could not be completed" else e.message)
  }
}
