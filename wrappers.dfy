/** Option and Result types for the values the source returns as `null` or signals with an exception. */
module Wrappers {

  datatype Option<+T> = None | Some(value: T)

  /** The exception kinds the modelled code can throw. */
  datatype Exception =
    | NullPointer           // a `!!` or a call on a null reference
    | NoSuchElement         // `first()` / `last()` of an empty list
    | IllegalArgument(message: string)   // `require(...)` or an explicit `throw IllegalArgumentException`
    | IndexOutOfBounds      // `InsnList.get(i)` past the end

  datatype Result<+T> = Success(value: T) | Failure(error: Exception)

  /** How a call that returns nothing ended: normally, or by throwing. */
  datatype Outcome = Normal | Threw(error: Exception)
}
