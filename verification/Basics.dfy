/** Types used throughout. */
module Basics {
  type byte = bv8

  datatype Option<T> = None | Some(value: T)

  function Zeros(n: nat): (r: seq<byte>)
    ensures |r| == n
  {
    seq(n, _ => 0)
  }
}
