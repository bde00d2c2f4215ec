// Option and Result: absent values (`undefined`) and operations that can
// end the process with a message (`process.exit(1)` after a log line).
module Wrappers {

  datatype Option<T> = None | Some(value: T) {
    predicate IsSome() { this.Some? }

    function GetOr(default: T): T {
      match this
      case Some(v) => v
      case None => default
    }
  }

  datatype Result<T, E> = Success(value: T) | Failure(error: E) {
    predicate IsFailure() { this.Failure? }
  }
}
