/** What a failed search rejects with. */
module Errors {
  import opened Basics

  datatype Failure =
    /** A `SearchError` with this message, and the text of the error it wraps, if any. */
    | SearchError(message: string, cause: Option<string>)
    /** A rejected request that propagates unwrapped. */
    | Rejected(reason: string)
    /** A JavaScript `TypeError`, raised by calling a method the value does not have. */
    | TypeError(what: string)
}
