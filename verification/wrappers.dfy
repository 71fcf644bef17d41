/** Failure-compatible result types shared by every module of the model.

    The Java code signals failures with exceptions; each exception class the
    core throws becomes one constructor of `Exception`, and an operation that
    can throw returns a `Result`. */
module Wrappers {

  datatype Option<+T> = None | Some(value: T) {

    predicate IsFailure() {
      None?
    }

    function PropagateFailure<U>(): Option<U>
      requires None?
    {
      None
    }

    function Extract(): T
      requires Some?
    {
      value
    }
  }

  /** The exception classes thrown by the modelled code. `NotYetImplemented`
      is the compiler's own "feature not built yet" signal and is kept apart
      from ordinary runtime errors. `Wrapped` stands for
      `new RuntimeException(message, cause)`. */
  datatype Exception =
    | IllegalArgument(message: string)
    | IllegalState(message: string)
    | Runtime(message: string)
    | UnsupportedOperation(message: string)
    | NotYetImplemented(message: string)
    | ClassCast(message: string)
    | IndexOutOfBounds(message: string)
    | NegativeArraySize(message: string)
    | NullPointer(message: string)
    | StackOverflow(message: string)
    | Wrapped(message: string, cause: Exception)

  datatype Result<+T> = Ok(value: T) | Err(error: Exception) {

    predicate IsFailure() {
      Err?
    }

    function PropagateFailure<U>(): Result<U>
      requires Err?
    {
      Err(error)
    }

    function Extract(): T
      requires Ok?
    {
      value
    }
  }
}
