/** What the other modules share. */
module Wrappers {
  /** A value that may be missing: Go's nil, or the second result of a lookup. */
  datatype Option<T> = None | Some(value: T)

  function Min(a: nat, b: nat): nat { if a < b then a else b }
}
