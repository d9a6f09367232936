/** Option and Kotlin's `Result<T>`, the failure-carrying types every layer of
    the login feature returns. */
module Wrappers {

  /** A nullable value: `None` is Kotlin's `null`. */
  datatype Option<+T> = None | Some(value: T) {

    /** Kotlin's elvis operator `this ?: default`. */
    function GetOr(default: T): (v: T) {
      match this
      case Some(x) => x
      case None => default
    }
  }

  /** The only part of a `Throwable` the login feature reads is its nullable message. */
  datatype Throwable = Throwable(message: Option<string>)

  /** Kotlin's `Result<T>`: a success value or the exception that ended the call. */
  datatype Result<+T> = Success(value: T) | Failure(error: Throwable) {

    /** `Result.map {}`: keeps the outcome and the exception, drops the value. */
    function Discard(): (r: Result<()>)
      ensures r.Success? <==> this.Success?
      ensures r.Failure? ==> r.error == this.error
    {
      match this
      case Success(_) => Success(())
      case Failure(e) => Failure(e)
    }
  }
}
