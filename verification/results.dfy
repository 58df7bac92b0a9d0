/** Failure-carrying values for the game services.
    The services signal failure by throwing NestJS HTTP exceptions; here each
    exception becomes an `Err` carrying the exception's class and message. */
module Results {

  /** A value that may be absent (`undefined`/`null` in the services). */
  datatype Option<+T> = None | Some(value: T)

  /** The NestJS exception classes thrown by the services, plus the
      `TypeError` a JavaScript property read on `undefined` raises. */
  datatype Error =
    | NotFound(message: string)
    | NotAcceptable(message: string)
    | BadRequest(message: string)
    | TypeError(message: string)

  /** Either a value or the exception that replaced it. */
  datatype Result<+T> = Ok(value: T) | Err(error: Error) {

    predicate IsFailure() {
      Err?
    }

    function PropagateFailure<U>(): Result<U>
      requires Err?
    {
      Err(error)
    }

    function Extract(): T
      requires Ok?
    {
      value
    }
  }
}
