/** Option and the error outcome every handler of the registry can end in. */
module Wrappers {

  datatype Option<+T> = None | Some(value: T) {
    function GetOr(default: T): T {
      match this
      case Some(v) => v
      case None => default
    }
  }

  /** The HTTP error responses the handlers throw, by kind. An exception the handler does not
      catch (a failed `toInt`, an index out of bounds, a null dereference) reaches the client
      as a server error. */
  datatype ErrorKind = BadRequest | Unauthorized | Forbidden | NotFound | Conflict | ServerError

  datatype Result<+T> = Ok(value: T) | Err(error: ErrorKind) {
    predicate IsFailure() { Err? }
    function PropagateFailure<U>(): Result<U>
      requires Err?
    {
      Err(error)
    }
    function Extract(): T
      requires Ok?
    {
      value
    }
  }

  /** The outcome of a handler that only changes state. */
  datatype Outcome = Done | Fail(error: ErrorKind) {
    predicate IsFailure() { Fail? }
    function PropagateFailure(): Outcome
      requires Fail?
    {
      this
    }
  }
}
