/**
 * The result sink of a command (`CommandOutput`): the decoder writes the
 * decoded value or the server's error string into it, and readers take the
 * value back out of it. Byte buffers are modelled as the ASCII text they hold.
 */
module Outputs {
  import opened Common
  import opened Errors

  /**
   * The two sinks the unit tests use: `StatusOutput`, which accepts a status
   * line through `set(ByteBuffer)`, and an anonymous subclass of the base
   * `CommandOutput` that overrides only `get()` (returning null) and so keeps
   * the base class's refusing structural writes.
   */
  datatype OutputKind = StatusOutput | GetOnlyOutput

  class CommandOutput {
    const kind: OutputKind
    /** The decoded value (the `output` field of the Java class). */
    var value: Option<string>
    /** The error string the server sent, if any. */
    var error: Option<string>

    constructor (kind: OutputKind)
      ensures this.kind == kind && value == None && error == None
    {
      this.kind := kind;
      value := None;
      error := None;
    }

    /** `get()`: the decoded value; the get-only subclass always answers null. */
    function Get(): (r: Option<string>)
      reads this
      ensures kind.GetOnlyOutput? ==> r == None
      ensures kind.StatusOutput? ==> r == value
    {
      if kind.StatusOutput? then value else None
    }

    /** `getError()`. */
    function GetError(): (r: Option<string>)
      reads this
      ensures r.Some? <==> error.Some?
      ensures r.Some? ==> r == error
    {
      error
    }

    /**
     * `set(ByteBuffer)`: a status sink stores the decoded text; the base class
     * refuses the write with UnsupportedOperationException.
     */
    method SetBytes(text: string) returns (r: Outcome<()>)
      modifies this
      ensures kind.StatusOutput? ==> r == Returns(()) && value == Some(text) && error == old(error)
      ensures kind.GetOnlyOutput? ==> r == Throws(UnsupportedOperation) && unchanged(this)
    {
      if kind.StatusOutput? {
        value := Some(text);
        r := Returns(());
      } else {
        r := Throws(UnsupportedOperation);
      }
    }

    /**
     * `set(long)`: neither sink of the model overrides it, so the base class
     * refuses it, and nothing changes.
     */
    method SetInteger(n: int) returns (r: Outcome<()>)
      ensures r == Throws(UnsupportedOperation)
    {
      r := Throws(UnsupportedOperation);
    }

    /** `setError(String)`: records the server's error string; the value is kept. */
    method SetError(message: string)
      modifies this
      ensures error == Some(message) && value == old(value)
    {
      error := Some(message);
    }
  }
}
