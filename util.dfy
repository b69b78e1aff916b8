/** Small value types shared by the other modules. */
module Util {

  /** An optional value, as Rust's `Option`. */
  datatype Option<+T> = None | Some(value: T)

  /** The outcome of an operation that returns `Result<(), E>`: success or an error value. */
  datatype Outcome<+E> = Pass | Fail(error: E)

  function Max(a: nat, b: nat): (m: nat)
    ensures m >= a && m >= b
    ensures m == a || m == b
  {
    if a >= b then a else b
  }
}
