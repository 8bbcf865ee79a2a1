/** An optional value: `None` where the program has nothing (no matching row, no
    reference field), `Some(v)` where it has `v`. */
module Wrappers {

  datatype Option<+T> = None | Some(value: T)

  /** An optional position moved `k` places further on. */
  function Shift(m: Option<nat>, k: nat): Option<nat> {
    match m
    case None => None
    case Some(n) => Some(n + k)
  }
}
