/** Result types shared by the modules: an optional value, a value-or-rejection, and the
    four ways in which a step-by-step operation can end. */
module Outcomes {
  type byte = x: int | 0 <= x < 256
  type Bytes = seq<byte>

  datatype Option<+T> = None | Some(value: T)

  /** What the strict readers return: a value, or a raised rejection. */
  datatype Result<+T> = Ok(value: T) | Err {
    predicate IsFailure() {
      Err?
    }
    function PropagateFailure<U>(): Result<U>
      requires Err?
    {
      Err
    }
    function Extract(): T
      requires Ok?
    {
      value
    }
  }

  /** How an operation on the outside world ends.
      - Done: it returned.
      - Refused: a check made by the program itself raised.
      - IoError: the operating system, or a signal, raised; the step may or may not have happened.
      - Cut: the process died or the power failed; no exception handler runs. */
  datatype Status = Done | Refused | IoError | Cut {
    predicate IsFailure() {
      !Done?
    }
    function PropagateFailure(): Status
      requires !Done?
    {
      this
    }
  }
}
