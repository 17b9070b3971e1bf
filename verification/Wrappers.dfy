// The two failure-carrying datatypes the other modules share.
module Wrappers {

  datatype Option<+T> = None | Some(value: T) {

    /** The left value when there is one, the right value otherwise (Python's `a or b`). */
    function OrElse(other: Option<T>): Option<T> {
      if Some? then this else other
    }
  }

  datatype Result<+T, +E> = Ok(value: T) | Err(error: E)
}
