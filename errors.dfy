/**
 * The exceptions a caller of an asynchronous command can observe, and the
 * outcome of a call that may return, raise or never come back.
 */
module Errors {

  /** The classes of throwable a decoder or a caller can hand to `completeExceptionally`. */
  datatype CauseKind =
    | RedisError                 // io.lettuce.core.RedisException
    | RedisCommandExecutionError // io.lettuce.core.RedisCommandExecutionException, a RedisException
    | RuntimeError               // any other java.lang.RuntimeException

  /** A throwable: its class and its message. */
  datatype Cause = Cause(kind: CauseKind, message: string)

  /** True for the causes that are instances of `RedisException`. */
  predicate IsRedisException(c: Cause) {
    c.kind.RedisError? || c.kind.RedisCommandExecutionError?
  }

  /** What a call can raise. */
  datatype Failure =
    | InterruptedException              // java.lang.InterruptedException, the raw interrupt
    | RedisCommandInterrupted           // RedisCommandInterruptedException, the wrapped interrupt
    | CancellationException             // the command was cancelled
    | TimeoutException                  // the deadline of a bounded get elapsed
    | ExecutionException(cause: Cause)  // the recorded cause, wrapped as CompletableFuture.get wraps it
    | Raised(cause: Cause)              // the recorded cause itself, unwrapped
    | UnsupportedOperation              // a sink refused a structural write

  /**
   * The outcome of one call. `Blocks` is a call that never returns: in a
   * sequential model nothing else can run while the caller waits, so an
   * unbounded wait on a pending command never ends.
   */
  datatype Outcome<+T> = Returns(value: T) | Throws(failure: Failure) | Blocks
}
