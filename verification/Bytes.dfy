/** Bytes, and numbers packed into them. */
module Bytes {
  type byte = n: int | 0 <= n < 256

  const TWO_TO_THE_16 := 0x1_0000
  const TWO_TO_THE_32 := 0x1_0000_0000

  /** A number cut to its low byte, as a store through a byte pointer does. */
  function Low(n: nat): byte {
    n % 256
  }

  function Zeros(n: nat): (r: seq<byte>)
    ensures |r| == n
  {
    seq(n, _ => 0)
  }
}
