/** Conversions of the C integer types that snake.c relies on. */
module CTypes {

  /** The value a C `char` (signed, 8 bits, two's complement) takes when an
      integer is stored into it: the low byte, read as a signed number. */
  function Char(v: int): (r: int)
    ensures -128 <= r < 128
    ensures (v - r) % 256 == 0
    ensures -128 <= v < 128 ==> r == v
  {
    var b := v % 256;
    if b < 128 then b else b - 256
  }

  /** `v ^ 2` on a non-negative integer: flips the bit of weight 2. */
  function Xor2(v: nat): (r: nat)
    ensures r % 4 == (v + 2) % 4 && r / 4 == v / 4
  {
    if (v / 2) % 2 == 0 then v + 2 else v - 2
  }
}
