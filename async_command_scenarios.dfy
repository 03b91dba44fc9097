/**
 * The unit tests of `AsyncCommand`, replayed against the model. Each method
 * builds the fixture the test builds, runs the same calls and promises the
 * test's assertions in its postcondition, for a caller whose interrupt flag
 * is given.
 */
module AsyncCommandScenarios {
  import opened Common
  import opened Errors
  import opened Outputs
  import opened Protocol
  import Futures

  /** The fixture: an INFO command over a fresh status sink, wrapped in a fresh handle. */
  method CreateCommand() returns (sut: AsyncCommand)
    ensures fresh(sut) && fresh(sut.command) && fresh(sut.command.output)
    ensures sut.Valid() && sut.state == Pending
    ensures sut.command.keyword == "INFO"
    ensures sut.command.output.kind == StatusOutput
    ensures sut.command.output.value == None && sut.command.output.error == None
  {
    var output := new CommandOutput(StatusOutput);
    var internal := new Command("INFO", output);
    sut := new AsyncCommand(internal);
  }

  /** `isCancelled`: not cancelled at first; cancel answers true, twice. */
  method IsCancelledScenario() returns (before: bool, first: bool, after: bool, second: bool)
    ensures !before && first && after && second
  {
    var sut := CreateCommand();
    before := sut.IsCancelled();
    first := sut.Cancel(true);
    after := sut.IsCancelled();
    second := sut.Cancel(true);
  }

  /** `isDone`: not done at first, done after `complete()`. */
  method IsDoneScenario() returns (before: bool, after: bool)
    ensures !before && after
  {
    var sut := CreateCommand();
    before := sut.IsDone();
    sut.Complete();
    after := sut.IsDone();
  }

  /** `awaitAllCompleted`: a completed command passes both immediate checks and a 5 ms wait. */
  method AwaitAllCompletedScenario(interrupted: bool) returns (a: Outcome<bool>, b: Outcome<bool>, c: Outcome<bool>)
    ensures a == Returns(true) && b == Returns(true) && c == Returns(true)
  {
    var sut := CreateCommand();
    sut.Complete();
    a := Futures.AwaitAll(-1, [sut], interrupted);
    b := Futures.AwaitAll(0, [sut], interrupted);
    c := Futures.Await(5, [sut], interrupted);
  }

  /** `awaitAll`: a pending command is not done within 1 ns. */
  method AwaitAllScenario() returns (a: Outcome<bool>)
    ensures a == Returns(false)
  {
    var sut := CreateCommand();
    assert !IsDone([sut][0].state);
    a := Futures.AwaitAll(1, [sut], false);
  }

  /** `awaitReturnsCompleted`: "one" is returned for the timeouts -1, 0 and 1. */
  method AwaitReturnsCompletedScenario(interrupted: bool)
    returns (a: Outcome<Option<string>>, b: Outcome<Option<string>>, c: Outcome<Option<string>>)
    ensures a == Returns(Some("one")) && b == Returns(Some("one")) && c == Returns(Some("one"))
  {
    var sut := CreateCommand();
    var _ := sut.GetOutput().SetBytes("one");
    sut.Complete();
    a := Futures.AwaitOrCancel(sut, -1, interrupted);
    b := Futures.AwaitOrCancel(sut, 0, interrupted);
    c := Futures.AwaitOrCancel(sut, 1, interrupted);
  }

  /** `awaitWithExecutionException`: the recorded RedisException is raised. */
  method AwaitWithExecutionExceptionScenario(interrupted: bool) returns (r: Outcome<Option<string>>)
    ensures r.Throws? && r.failure.Raised? && IsRedisException(r.failure.cause)
  {
    var sut := CreateCommand();
    var _ := sut.CompleteExceptionally(Cause(RedisError, "error"));
    r := Futures.AwaitOrCancel(sut, 1, interrupted);
  }

  /** `awaitWithCancelledCommand`: waiting on a cancelled command raises CancellationException. */
  method AwaitWithCancelledCommandScenario(interrupted: bool) returns (r: Outcome<Option<string>>)
    ensures r == Throws(CancellationException)
  {
    var sut := CreateCommand();
    var _ := sut.Cancel(true);
    r := Futures.AwaitOrCancel(sut, 5, interrupted);
  }

  /** `awaitAllWithExecutionException`: the batch wait raises the recorded RedisException. */
  method AwaitAllWithExecutionExceptionScenario(interrupted: bool) returns (r: Outcome<bool>)
    ensures r.Throws? && r.failure.Raised? && IsRedisException(r.failure.cause)
  {
    var sut := CreateCommand();
    var _ := sut.CompleteExceptionally(Cause(RedisCommandExecutionError, "error"));
    r := Futures.Await(0, [sut], interrupted);
  }

  /** `getError`: the request reports the error written into the handle's sink. */
  method GetErrorScenario() returns (e: Option<string>)
    ensures e == Some("error")
  {
    var sut := CreateCommand();
    var internal := sut.command;
    sut.GetOutput().SetError("error");
    e := internal.GetError();
  }

  /** `getErrorAsync`: an error in the sink turns `complete()` into exceptional completion. */
  method GetErrorAsyncScenario() returns (exceptionally: bool, cause: Cause)
    ensures exceptionally && cause == Cause(RedisCommandExecutionError, "error")
  {
    var sut := CreateCommand();
    sut.GetOutput().SetError("error");
    sut.Complete();
    exceptionally := IsCompletedExceptionally(sut.state);
    cause := sut.state.cause;
  }

  /** `completeExceptionally`: the cause's message reaches the request's error. */
  method CompleteExceptionallyScenario() returns (e: Option<string>, exceptionally: bool)
    ensures e == Some("test") && exceptionally
  {
    var sut := CreateCommand();
    var internal := sut.command;
    var _ := sut.CompleteExceptionally(Cause(RuntimeError, "test"));
    e := internal.GetError();
    exceptionally := IsCompletedExceptionally(sut.state);
  }

  /** `getWithTimeout`: a zero timeout on a completed command returns the value. */
  method GetWithTimeoutScenario(interrupted: bool) returns (r: Outcome<Option<string>>)
    ensures r == Returns(Some("one"))
  {
    var sut := CreateCommand();
    var _ := sut.GetOutput().SetBytes("one");
    sut.Complete();
    r := sut.GetWithin(0, interrupted);
  }

  /** `getTimeout`: a bounded get on a pending command raises TimeoutException. */
  method GetTimeoutScenario() returns (r: Outcome<Option<string>>)
    ensures r == Throws(TimeoutException)
  {
    var sut := CreateCommand();
    r := sut.GetWithin(2, false);
  }

  /** `awaitTimeout`: `await` on a pending command answers false. */
  method AwaitTimeoutScenario() returns (r: Outcome<bool>)
    ensures r == Returns(false)
  {
    var sut := CreateCommand();
    r := sut.Await(2, false);
  }

  /** `getInterrupted`: an interrupted caller of `get()` gets InterruptedException. */
  method GetInterruptedScenario() returns (r: Outcome<Option<string>>)
    ensures r == Throws(InterruptedException)
  {
    var sut := CreateCommand();
    r := sut.Get(true);
  }

  /** `getInterrupted2`: so does an interrupted caller of `get(5 ms)`. */
  method GetWithinInterruptedScenario() returns (r: Outcome<Option<string>>)
    ensures r == Throws(InterruptedException)
  {
    var sut := CreateCommand();
    r := sut.GetWithin(5, true);
  }

  /** `awaitInterrupted2`: an interrupted caller of `await(5 ms)` gets RedisCommandInterruptedException. */
  method AwaitInterruptedScenario() returns (r: Outcome<bool>)
    ensures r == Throws(RedisCommandInterrupted)
  {
    var sut := CreateCommand();
    r := sut.Await(5, true);
  }

  /** `outputSubclassOverride1` and `2`: a sink overriding only `get()` refuses both structural writes. */
  method OutputSubclassOverrideScenario() returns (bytes: Outcome<()>, integer: Outcome<()>)
    ensures bytes == Throws(UnsupportedOperation) && integer == Throws(UnsupportedOperation)
  {
    var output := new CommandOutput(GetOnlyOutput);
    bytes := output.SetBytes("");
    integer := output.SetInteger(0);
  }
}
