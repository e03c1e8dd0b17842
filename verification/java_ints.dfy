/** Java's fixed-width integers, as subsets of the unbounded `int`. */
module JavaInts {

  const INT32_MIN: int := -0x8000_0000
  const INT32_MAX: int := 0x7fff_ffff
  const INT64_MIN: int := -0x8000_0000_0000_0000
  const INT64_MAX: int := 0x7fff_ffff_ffff_ffff

  /** A Java `int`. */
  type int32 = x: int | INT32_MIN <= x <= INT32_MAX

  /** A Java `long`. */
  type int64 = x: int | INT64_MIN <= x <= INT64_MAX

  /** Java `int` addition: the mathematical sum reduced into 32 bits (two's complement). */
  function Wrap32(x: int): (r: int32)
    ensures INT32_MIN <= x <= INT32_MAX ==> r == x
    ensures (r - x) % 0x1_0000_0000 == 0
  {
    (x - INT32_MIN) % 0x1_0000_0000 + INT32_MIN
  }
}
