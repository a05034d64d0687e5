/** Option and Result values shared by every module of the model. */
module Basics {

  /** A value that may be absent; `None` stands for JavaScript's `undefined`
      wherever the source returns "nothing found". */
  datatype Option<+T> = None | Some(value: T) {
    function GetOr(default: T): T {
      match this
      case Some(v) => v
      case None => default
    }
  }

  /** The outcome of an operation that may throw: `Err` carries what was thrown. */
  datatype Result<+T, +E> = Ok(value: T) | Err(error: E)

  /** Appending to a non-empty sequence is appending to its tail behind the same head. */
  lemma ConsAppend<T>(s: seq<T>, x: T)
    requires s != []
    ensures [s[0]] + (s[1..] + [x]) == s + [x]
  {
    assert s == [s[0]] + s[1..];
  }
}
