/** Nullable values and error results, shared by every service of the model. */
module Wrappers {

  /** A C# nullable: `None` stands for `null`. */
  datatype Option<+T> = None | Some(value: T) {

    /** The `??` operator: the value when present, otherwise `fallback`. */
    function GetOr(fallback: T): T {
      match this
      case Some(v) => v
      case None => fallback
    }
  }

  /** The outcome of an operation that may throw: `Failure` names the exception. */
  datatype Result<+R, +E> = Success(value: R) | Failure(error: E)

  /** C#'s lifted `>` on a nullable left operand: `null > y` is false. */
  predicate LiftedGreater(x: Option<int>, y: int) {
    match x
    case Some(v) => v > y
    case None => false
  }
}
