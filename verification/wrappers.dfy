/** Small failure-compatible wrappers shared by every module of the model. */
module Wrappers {

  /** A JavaScript value that may be missing: `None` stands for `undefined`/`null` after a lookup. */
  datatype Option<+T> = None | Some(value: T) {
    function GetOr(default: T): T {
      match this
      case Some(v) => v
      case None => default
    }
  }

  /**
   * A field of a JSON request body. JSON can say "absent" (the key is missing, so JavaScript reads
   * `undefined`) and "null" separately, and the handlers treat the two differently: Sequelize applies
   * a column default only for `undefined`, and `x !== undefined` lets `null` through.
   */
  datatype Field<+T> = Absent | Null | Val(value: T) {
    predicate IsUndefined() { Absent? }

    /** The value an assignment leaves: the field's value, or `fallback` when it is undefined. */
    function Or(fallback: T): T
      requires !Null?
    {
      if Val? then value else fallback
    }
    function ToOption(): Option<T> {
      match this
      case Val(v) => Some(v)
      case _ => None
    }
  }

  /** The outcome of an operation that either produces a value or fails with an error. */
  datatype Result<+T, +E> = Ok(value: T) | Err(error: E)
}
