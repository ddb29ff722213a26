/** Outcomes shared by every layer: optional values (C# null), calls that may throw,
    and the FluentResults `Result` the product service returns. */
module Wrappers {

  /** A value that may be absent; `None` stands for C#'s `null`. */
  datatype Option<+T> = None | Some(value: T) {

    /** The `??` operator: the value when present, otherwise `default`. */
    function GetOr(default: T): T {
      match this
      case Some(v) => v
      case None => default
    }
  }

  /** The outcome of a call that may raise an exception: what it returned, or the
      message of the exception it raised. */
  datatype Attempt<+T> = Returned(value: T) | Threw(message: string)

  /** A FluentResults error: its message and the messages of the reasons that caused it. */
  datatype Error = Error(message: string, reasons: seq<string>)

  /** A FluentResults result: a value, or the list of errors that made the operation fail. */
  datatype Result<+T> = Ok(value: T) | Fail(errors: seq<Error>)

  /** `Result.Fail(message)`: one error with that message and no reasons. */
  function FailWith<T>(message: string): (r: Result<T>)
    ensures r.Fail? && |r.errors| == 1
    ensures r.errors[0].message == message && r.errors[0].reasons == []
  {
    Fail([Error(message, [])])
  }
}
