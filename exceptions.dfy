/** The exceptions the compiler and its runtime containers throw, and a
    failure-compatible Result type that carries them. */
module Exceptions {

  /** One constructor per exception class the modelled code raises. */
  datatype Exception =
    | RuntimeException(message: string)
    | UnexpectedValueException(message: string)
    | InvalidArgumentException(message: string)
    | LogicException(message: string)
    | OutOfBoundsException
    | ParsingException(message: string)
      /** PHP's TypeError: a declared parameter or return type is violated */
    | TypeError(message: string)
      /** PHP's ArgumentCountError: a required constructor argument is missing */
    | ArgumentCountError(message: string)
      /** PHP's Error: a call to a method the class does not define, or an
          object with no string conversion used as a string */
    | PhpError(message: string)
      /** a loop of the source that never terminates on this input */
    | Diverges
      /** an enclosing context the model asked for does not exist */
    | NoSuchContext(depth: nat)
      /** behaviour of a class that is not part of this model */
    | OutsideModel(what: string)

  datatype Result<+T> = Ok(value: T) | Err(error: Exception) {
    predicate IsFailure() { Err? }

    function PropagateFailure<U>(): Result<U>
      requires Err?
    {
      Err(error)
    }

    function Extract(): T
      requires Ok?
    {
      value
    }
  }

  datatype Option<+T> = None | Some(value: T)
}
