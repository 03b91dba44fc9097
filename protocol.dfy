/**
 * A command and its asynchronous handle (`Command`, `AsyncCommand`).
 *
 * The handle moves once from pending to one terminal state: completed with
 * the sink's value, completed exceptionally with a recorded cause, or
 * cancelled. The decoder's writes are explicit method calls, and a wait is a
 * check of the present state: in a sequential model nothing can change the
 * state while the caller waits. The caller's interrupt flag is an input.
 */
module Protocol {
  import opened Common
  import opened Errors
  import opened Outputs

  /** The state of an asynchronous command, as one tagged value. */
  datatype State =
    | Pending
    | Completed(value: Option<string>)
    | Failed(cause: Cause)
    | Cancelled

  /** `isDone()`: completed, failed and cancelled are all terminal. */
  predicate IsDone(s: State)
    ensures IsDone(s) <==> s.Completed? || s.Failed? || s.Cancelled?
  {
    !s.Pending?
  }

  /**
   * `CompletableFuture.isCompletedExceptionally()`: failed or cancelled, that
   * is, done without a value.
   */
  predicate IsCompletedExceptionally(s: State)
    ensures IsCompletedExceptionally(s) <==> IsDone(s) && !s.Completed?
  {
    s.Failed? || s.Cancelled?
  }

  /**
   * `complete()`: a pending command completes with the sink's value, or, when
   * the sink holds an error string, fails with an execution error carrying
   * it. A terminal command is left as it is.
   */
  function CompleteStep(s: State, decoded: Option<string>, error: Option<string>): (r: State)
    ensures IsDone(r)
    ensures IsDone(s) ==> r == s
    ensures s.Pending? && error.Some? ==> r == Failed(Cause(RedisCommandExecutionError, error.value))
    ensures s.Pending? && error.None? ==> r == Completed(decoded)
  {
    if !s.Pending? then s
    else match error
      case Some(message) => Failed(Cause(RedisCommandExecutionError, message))
      case None => Completed(decoded)
  }

  /**
   * `completeExceptionally(cause)`: the new state, and whether this call made
   * the transition. The first recorded cause wins.
   */
  function CompleteExceptionallyStep(s: State, cause: Cause): (r: (State, bool))
    ensures r.1 <==> s.Pending?
    ensures r.1 ==> r.0 == Failed(cause) && IsCompletedExceptionally(r.0)
    ensures !r.1 ==> r.0 == s
  {
    if s.Pending? then (Failed(cause), true) else (s, false)
  }

  /**
   * `cancel(mayInterruptIfRunning)`: the new state and the answer. The answer
   * is true exactly when the command ends up cancelled, so a cancel after a
   * cancel answers true again and a cancel after completion answers false.
   */
  function CancelStep(s: State): (r: (State, bool))
    ensures IsDone(r.0)
    ensures r.1 <==> r.0.Cancelled?
    ensures r.1 <==> s.Pending? || s.Cancelled?
    ensures IsDone(s) ==> r.0 == s
  {
    if s.Pending? then (Cancelled, true) else (s, s.Cancelled?)
  }

  /** A second cancel leaves the state alone and gives the first one's answer. */
  lemma CancelIsIdempotent(s: State)
    ensures CancelStep(CancelStep(s).0) == CancelStep(s)
  {
  }

  /** Once terminal, no operation changes the state. */
  lemma TerminalIsFinal(s: State, decoded: Option<string>, error: Option<string>, cause: Cause)
    requires IsDone(s)
    ensures CompleteStep(s, decoded, error) == s
    ensures CompleteExceptionallyStep(s, cause) == (s, false)
    ensures CancelStep(s).0 == s
  {
  }

  /** What a wait reports once the command is terminal: value, wrapped cause or cancellation. */
  function TerminalOutcome(s: State): (r: Outcome<Option<string>>)
    requires IsDone(s)
    ensures r.Returns? <==> s.Completed?
    ensures r.Returns? ==> r.value == s.value
    ensures s.Failed? ==> r == Throws(ExecutionException(s.cause))
    ensures s.Cancelled? ==> r == Throws(CancellationException)
  {
    match s
    case Completed(v) => Returns(v)
    case Failed(c) => Throws(ExecutionException(c))
    case Cancelled => Throws(CancellationException)
  }

  /**
   * `get()`, the unbounded wait. A terminal command answers at once, whatever
   * the interrupt flag says; on a pending command an interrupted caller gets
   * the raw InterruptedException, and any other caller waits for ever.
   */
  function GetOutcome(s: State, interrupted: bool): (r: Outcome<Option<string>>)
    ensures r.Blocks? <==> s.Pending? && !interrupted
    ensures s.Pending? && interrupted ==> r == Throws(InterruptedException)
    ensures IsDone(s) ==> r == TerminalOutcome(s)
  {
    if IsDone(s) then TerminalOutcome(s)
    else if interrupted then Throws(InterruptedException)
    else Blocks
  }

  /**
   * `get(timeout, unit)`, the bounded wait. It never blocks: a pending command
   * raises InterruptedException for an interrupted caller and TimeoutException
   * otherwise, and a terminal one answers as the unbounded wait does.
   */
  function GetWithinOutcome(s: State, interrupted: bool): (r: Outcome<Option<string>>)
    ensures !r.Blocks?
    ensures r == Throws(TimeoutException) <==> s.Pending? && !interrupted
    ensures !GetOutcome(s, interrupted).Blocks? ==> r == GetOutcome(s, interrupted)
  {
    if IsDone(s) then TerminalOutcome(s)
    else if interrupted then Throws(InterruptedException)
    else Throws(TimeoutException)
  }

  /**
   * `await(timeout, unit)`: the bounded wait translated into a boolean. A
   * value, a recorded cause and a cancellation all mean "done"; a timeout
   * means "not done"; an interrupt becomes RedisCommandInterruptedException.
   */
  function AwaitOutcome(s: State, interrupted: bool): (r: Outcome<bool>)
    ensures !interrupted ==> r == Returns(IsDone(s))
    ensures interrupted ==> r == if IsDone(s) then Returns(true) else Throws(RedisCommandInterrupted)
  {
    match GetWithinOutcome(s, interrupted)
    case Returns(_) => Returns(true)
    case Throws(TimeoutException) => Returns(false)
    case Throws(InterruptedException) => Throws(RedisCommandInterrupted)
    case Throws(_) => Returns(true)
    case Blocks => Returns(false)
  }

  /** Once a sequence of states reaches a terminal state, it stays in it. */
  ghost predicate TerminalStays(h: seq<State>) {
    forall i, j :: 0 <= i < j < |h| && IsDone(h[i]) ==> h[j] == h[i]
  }

  /**
   * Recording the state after one more attempt keeps a history whose
   * terminal state stays, as long as a terminal last state is kept.
   */
  lemma {:induction false} RecordKeepsTerminal(h: seq<State>, s: State)
    requires h != [] && TerminalStays(h)
    requires IsDone(h[|h| - 1]) ==> s == h[|h| - 1]
    ensures TerminalStays(h + [s])
  {
    var h' := h + [s];
    forall i, j | 0 <= i < j < |h'| && IsDone(h'[i])
      ensures h'[j] == h'[i]
    {
      if j == |h| {
        if i < |h| - 1 {
          assert h[|h| - 1] == h[i];
        }
      }
    }
  }

  /** A request: its protocol keyword and the sink its response is decoded into. */
  class Command {
    const keyword: string
    const output: CommandOutput

    constructor (keyword: string, output: CommandOutput)
      ensures this.keyword == keyword && this.output == output
    {
      this.keyword := keyword;
      this.output := output;
    }

    /** `getError()`: the request reports its sink's error string. */
    function GetError(): (r: Option<string>)
      reads output
      ensures r == output.GetError()
    {
      output.error
    }
  }

  /** The cancellable future wrapping one request. */
  class AsyncCommand {
    const command: Command
    var state: State
    /** The state after each transition attempt, oldest first: it starts pending. */
    ghost var history: seq<State>

    /**
     * The history ends in the present state, and once it holds a terminal
     * state every later entry is that same state: the state changes at most
     * once.
     */
    ghost predicate Valid()
      reads this
    {
      history != [] && history[0] == Pending && history[|history| - 1] == state && TerminalStays(history)
    }

    constructor (command: Command)
      ensures Valid() && state == Pending && this.command == command && history == [Pending]
    {
      this.command := command;
      state := Pending;
      history := [Pending];
    }

    /** `getOutput()`: the sink of the wrapped request, shared with it. */
    function GetOutput(): (o: CommandOutput)
      ensures o == command.output
    {
      command.output
    }

    /** `isDone()`. */
    predicate IsDone()
      reads this
      ensures IsDone() <==> state.Completed? || state.Failed? || state.Cancelled?
    {
      !state.Pending?
    }

    /** `isCancelled()`: a cancelled command is done and completed exceptionally. */
    predicate IsCancelled()
      reads this
      ensures IsCancelled() ==> IsDone() && IsCompletedExceptionally(state)
      ensures IsCancelled() <==> IsCompletedExceptionally(state) && !state.Failed?
    {
      state.Cancelled?
    }

    /** `complete()`, called by the decoder once the sink holds the response. */
    method Complete()
      requires Valid()
      modifies this
      ensures Valid()
      ensures state == CompleteStep(old(state), command.output.Get(), command.output.error)
      ensures history == old(history) + [state]
    {
      if state.Pending? {
        var error := command.output.GetError();
        match error {
          case Some(message) =>
            state := Failed(Cause(RedisCommandExecutionError, message));
          case None =>
            state := Completed(command.output.Get());
        }
      }
      RecordKeepsTerminal(history, state);
      history := history + [state];
    }

    /**
     * `completeExceptionally(cause)`: records the cause and copies its message
     * into the sink's error. Once terminal the call is ignored and answers false.
     */
    method CompleteExceptionally(cause: Cause) returns (r: bool)
      requires Valid()
      modifies this, command.output
      ensures Valid()
      ensures (state, r) == CompleteExceptionallyStep(old(state), cause)
      ensures r ==> command.output.error == Some(cause.message) && command.output.value == old(command.output.value)
      ensures !r ==> unchanged(command.output)
      ensures history == old(history) + [state]
    {
      if state.Pending? {
        command.output.SetError(cause.message);
        state := Failed(cause);
        r := true;
      } else {
        r := false;
      }
      RecordKeepsTerminal(history, state);
      history := history + [state];
    }

    /** `cancel(mayInterruptIfRunning)`; the flag has no effect on the outcome. */
    method Cancel(mayInterruptIfRunning: bool) returns (r: bool)
      requires Valid()
      modifies this
      ensures Valid()
      ensures (state, r) == CancelStep(old(state))
      ensures history == old(history) + [state]
    {
      if state.Pending? {
        state := Cancelled;
        r := true;
      } else {
        r := state.Cancelled?;
      }
      RecordKeepsTerminal(history, state);
      history := history + [state];
    }

    /** `get()`. */
    method Get(interrupted: bool) returns (r: Outcome<Option<string>>)
      ensures r == GetOutcome(state, interrupted)
    {
      if state.Pending? {
        r := if interrupted then Throws(InterruptedException) else Blocks;
      } else {
        r := TerminalOutcome(state);
      }
    }

    /**
     * `get(timeout, unit)`. Whatever the budget, a pending command is still
     * pending when the wait ends and a terminal one answers at once, so the
     * timeout does not decide the outcome of one wait.
     */
    method GetWithin(timeout: int, interrupted: bool) returns (r: Outcome<Option<string>>)
      ensures r == GetWithinOutcome(state, interrupted)
    {
      if state.Pending? {
        r := if interrupted then Throws(InterruptedException) else Throws(TimeoutException);
      } else {
        r := TerminalOutcome(state);
      }
    }

    /** `await(timeout, unit)`: runs the bounded wait and translates its outcome. */
    method Await(timeout: int, interrupted: bool) returns (r: Outcome<bool>)
      ensures r == AwaitOutcome(state, interrupted)
    {
      var w := GetWithin(timeout, interrupted);
      match w {
        case Returns(_) => r := Returns(true);
        case Throws(TimeoutException) => r := Returns(false);
        case Throws(InterruptedException) => r := Throws(RedisCommandInterrupted);
        case Throws(_) => r := Returns(true);
        case Blocks => r := Returns(false);
      }
    }
  }
}
