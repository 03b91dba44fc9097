/**
 * The bulk-wait helpers of `Futures`: waiting for many commands against one
 * shared deadline, surfacing the first failure of a batch, and waiting for
 * one command with cancellation on timeout.
 *
 * A wait is a check of the present state. A non-positive timeout is one
 * immediate check; a positive one waits, and so observes the caller's
 * interrupt flag, only on a command that is still pending, where the whole
 * remaining budget then runs out.
 */
module Futures {
  import opened Common
  import opened Errors
  import opened Protocol

  /** Every listed command is terminal; completed, failed and cancelled all count. */
  ghost predicate AllDone(futures: seq<AsyncCommand>)
    reads futures
  {
    forall i :: 0 <= i < |futures| ==> IsDone(futures[i].state)
  }

  /**
   * The cause of the first command of the batch, in order, that failed. A
   * cancelled command has no cause and is passed over.
   */
  ghost function FirstFailure(futures: seq<AsyncCommand>): (r: Option<Cause>)
    reads futures
  {
    if futures == [] then None
    else if futures[0].state.Failed? then Some(futures[0].state.cause)
    else FirstFailure(futures[1..])
  }

  /** `FirstFailure` names the earliest failed command of the batch, and is absent only if none failed. */
  lemma {:induction false} FirstFailureIsEarliest(futures: seq<AsyncCommand>)
    ensures FirstFailure(futures).None? <==> forall j :: 0 <= j < |futures| ==> !futures[j].state.Failed?
    ensures FirstFailure(futures).Some? ==>
      exists i :: 0 <= i < |futures| && futures[i].state == Failed(FirstFailure(futures).value)
        && forall j :: 0 <= j < i ==> !futures[j].state.Failed?
    decreases |futures|
  {
    if futures != [] && !futures[0].state.Failed? {
      FirstFailureIsEarliest(futures[1..]);
      if FirstFailure(futures).Some? {
        var i :| 0 <= i < |futures[1..]| && futures[1..][i].state == Failed(FirstFailure(futures).value)
          && forall j :: 0 <= j < i ==> !futures[1..][j].state.Failed?;
        assert futures[i + 1].state == Failed(FirstFailure(futures).value);
        assert forall j :: 0 <= j < i + 1 ==> !futures[j].state.Failed? by {
          forall j | 0 <= j < i + 1 ensures !futures[j].state.Failed? {
            if j > 0 { assert futures[j] == futures[1..][j - 1]; }
          }
        }
      } else {
        forall j | 0 <= j < |futures| ensures !futures[j].state.Failed? {
          if j > 0 { assert futures[j] == futures[1..][j - 1]; }
        }
      }
    }
  }

  /**
   * `awaitAll(timeout, unit, futures...)`: true iff every command is terminal.
   * With a positive timeout an interrupted caller that reaches a pending
   * command gets RedisCommandInterruptedException instead.
   */
  method AwaitAll(timeout: int, futures: seq<AsyncCommand>, interrupted: bool) returns (r: Outcome<bool>)
    ensures timeout <= 0 || !interrupted ==> r == Returns(AllDone(futures))
    ensures timeout > 0 && interrupted ==>
      r == if AllDone(futures) then Returns(true) else Throws(RedisCommandInterrupted)
  {
    for i := 0 to |futures|
      invariant forall j :: 0 <= j < i ==> IsDone(futures[j].state)
    {
      if timeout <= 0 {
        if !futures[i].IsDone() {
          return Returns(false);
        }
      } else {
        var w := futures[i].GetWithin(timeout, interrupted);
        match w {
          case Throws(TimeoutException) =>
            return Returns(false);
          case Throws(InterruptedException) =>
            return Throws(RedisCommandInterrupted);
          case _ =>
        }
      }
    }
    return Returns(true);
  }

  /**
   * `await(timeout, unit, futures...)`: waits as `AwaitAll` does, then raises
   * the cause of the first failed command of the batch, if there is one. A
   * cancelled command counts as done and raises nothing.
   */
  method Await(timeout: int, futures: seq<AsyncCommand>, interrupted: bool) returns (r: Outcome<bool>)
    ensures timeout > 0 && interrupted && !AllDone(futures) ==> r == Throws(RedisCommandInterrupted)
    ensures !(timeout > 0 && interrupted && !AllDone(futures)) ==>
      r == match FirstFailure(futures)
        case Some(c) => Throws(Raised(c))
        case None => Returns(AllDone(futures))
  {
    r := AwaitAll(timeout, futures, interrupted);
    if r.Throws? {
      return;
    }
    for i := 0 to |futures|
      invariant forall j :: 0 <= j < i ==> !futures[j].state.Failed?
      invariant FirstFailure(futures) == FirstFailure(futures[i..])
    {
      assert futures[i..][1..] == futures[i + 1..];
      if futures[i].state.Failed? {
        return Throws(Raised(futures[i].state.cause));
      }
    }
    assert futures[|futures|..] == [];
  }

  /**
   * `awaitOrCancel(command, timeout, unit)`: the command's value once it is
   * done; its cause, unwrapped, if it failed; CancellationException if it was
   * cancelled or if it is not done by the deadline, in which case it is
   * cancelled first. An interrupted caller waiting with a positive timeout on
   * a pending command gets RedisCommandInterruptedException and the command
   * stays pending.
   */
  method AwaitOrCancel(command: AsyncCommand, timeout: int, interrupted: bool) returns (r: Outcome<Option<string>>)
    requires command.Valid()
    modifies command
    ensures command.Valid()
    ensures old(command.state).Pending? && timeout > 0 && interrupted ==>
      r == Throws(RedisCommandInterrupted) && command.state == Pending
    ensures old(command.state).Pending? && !(timeout > 0 && interrupted) ==>
      r == Throws(CancellationException) && command.state == Cancelled
    ensures !old(command.state).Pending? ==> command.state == old(command.state)
    ensures old(command.state).Completed? ==> r == Returns(old(command.state).value)
    ensures old(command.state).Failed? ==> r == Throws(Raised(old(command.state).cause))
    ensures old(command.state).Cancelled? ==> r == Throws(CancellationException)
  {
    if timeout > 0 {
      var done := command.Await(timeout, interrupted);
      if done.Throws? {
        return Throws(done.failure);
      }
      if !done.value {
        var _ := command.Cancel(true);
        return Throws(CancellationException);
      }
    } else if !command.IsDone() {
      var _ := command.Cancel(true);
      return Throws(CancellationException);
    }
    var g := command.Get(interrupted);
    match g {
      case Throws(ExecutionException(c)) => r := Throws(Raised(c));
      case _ => r := g;
    }
  }
}
