/** A value that may be missing. */
module Wrappers {
  datatype Option<T> = None | Some(value: T)

  /** A cursor position: an index, or none outside. */
  function IfInside(i: int, n: nat): Option<nat> {
    if 0 <= i < n then Some(i) else None
  }
}
