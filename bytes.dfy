/** Bytes and the C cast `(uint8_t)x` that the binding applies to integers. */
module Bytes {

  newtype byte = x: int | 0 <= x < 256

  /** The C conversion of an integer to `uint8_t` (or `char` stored as a byte): the low 8 bits.
      Dafny's `%` is Euclidean, so a negative value wraps as two's complement does. */
  function Low8(x: int): (b: byte)
    ensures (x - b as int) % 256 == 0
  {
    (x % 256) as byte
  }

  /** Low8 leaves a byte-sized value alone, ignores multiples of 256 and maps -1 to 0xFF. */
  lemma Low8Properties(x: int, k: int)
    ensures 0 <= x < 256 ==> Low8(x) as int == x
    ensures Low8(x + 256 * k) == Low8(x)
    ensures Low8(-1) == 0xFF
  {
    assert Low8(-1) == 0xFF;
    assert Low8(x + 256 * k) == Low8(x);
  }

  /** Element-wise truncation of a sequence of integers, as the fill loops of `read` and `write` do. */
  function Truncated(xs: seq<int>): (r: seq<byte>)
    ensures |r| == |xs|
    ensures forall i :: 0 <= i < |xs| ==> r[i] == Low8(xs[i])
  {
    if xs == [] then [] else Truncated(xs[..|xs| - 1]) + [Low8(xs[|xs| - 1])]
  }
}
