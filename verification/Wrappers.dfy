/** What the other modules share: optional values, results that may be errors, and bytes. */
module Wrappers {

  datatype Option<+T> = None | Some(value: T) {
    function GetOr(default: T): T {
      if Some? then value else default
    }
  }

  datatype Result<+T, +E> = Ok(value: T) | Err(error: E)

  type byte = bv8

  /** A byte as a character, where text is a sequence of bytes. */
  function Byte(n: nat): char { (n % 256) as char }
}
