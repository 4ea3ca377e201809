/** Optional values: `None` stands for JavaScript's `undefined`/`null` results
    and for "no update" outcomes of the client handlers. */
module Wrappers {

  datatype Option<+T> = None | Some(value: T) {

    /** Returns the value in Some, or `default` when None. */
    function GetOr(default: T): T {
      match this
      case Some(v) => v
      case None => default
    }
  }
}
