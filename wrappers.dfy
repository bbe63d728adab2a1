/** Failure-compatible results for the Java exceptions the modelled code can throw. */
module Wrappers {

  /** The exceptions thrown by the modelled code, by Java class name. */
  datatype JavaException =
    | IllegalArgument
    | NumberFormat
    | ArrayIndexOutOfBounds
    | StringIndexOutOfBounds
    | NullPointer
    | Arithmetic
    | NoSuchElement
    | EndOfFile
    | NegativeArraySize

  datatype Option<+T> = None | Some(value: T)

  datatype Result<+T> = Ok(value: T) | Err(error: JavaException) {
    predicate IsFailure() { Err? }

    function PropagateFailure<U>(): Result<U>
      requires Err?
    {
      Err(error)
    }

    function Extract(): T
      requires Ok?
    {
      value
    }
  }
}
