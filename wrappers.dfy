/** Option, Result and the exception kinds the C++ code throws. A thrown
    exception becomes a Failure carrying its kind and message; callers that
    catch it in the source branch on Failure? here. */
module Wrappers {

  datatype Option<+T> = None | Some(value: T)

  /** The exception classes the core throws. */
  datatype Error =
    | InvalidArgument(message: string)   // std::invalid_argument
    | OutOfRange                         // std::out_of_range, thrown by `.at`
    | LogicError(message: string)        // std::logic_error
    | ParsingError(message: string)      // json::ParsingError

  datatype Result<+T> = Success(value: T) | Failure(error: Error) {
    predicate IsFailure() { Failure? }

    function PropagateFailure<U>(): Result<U>
      requires Failure?
    {
      Failure(error)
    }

    function Extract(): T
      requires Success?
    {
      value
    }
  }

  /** A Result without a value, for operations that only succeed or throw. */
  datatype Outcome = Pass | Fail(error: Error)
}
