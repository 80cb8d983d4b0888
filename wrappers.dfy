/** Optional values and results, plus JavaScript's three-way "absent / null / value". */
module Wrappers {

  datatype Option<+T> = None | Some(value: T) {
    function GetOr(default: T): T
    {
      match this
      case Some(v) => v
      case None => default
    }
  }

  datatype Result<+R, +E> = Success(value: R) | Failure(error: E)

  /** A JavaScript value that may be `undefined`, `null` or a real value.
      GraphQL arguments and input fields that the caller omits are `undefined`;
      ones the caller sends as `null` are `null`. */
  datatype Nullable<+T> = Undefined | Null | Defined(value: T)

  /** `Number(x)` for an integer argument as the slicing code coerces it:
      `undefined` never reaches the coercion, `null` becomes 0. */
  function NullToZero(x: Nullable<int>): int
    requires !x.Undefined?
  {
    if x.Defined? then x.value else 0
  }
}
