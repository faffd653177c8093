/** Optional values (JavaScript `undefined`) and the outcome of an operation that may throw. */
module Wrappers {

  /** `None` stands for JavaScript `undefined`. */
  datatype Option<+T> = None | Some(value: T)

  /** Why a store reducer threw instead of returning a new state. */
  datatype Failure =
    /** A reducer indexed a token set that does not exist, or whose value is `undefined`,
        and then called an array method on it (a `TypeError` in JavaScript). */
    | MissingParentSet(name: string)

  /** The result of a reducer: it either ran to completion or threw. */
  datatype Outcome = Pass | Fail(error: Failure)
}
