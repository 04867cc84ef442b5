/** Kotlin's 32-bit `Int` and the truncating `Long.toInt()` conversion. */
module Int32 {
  const MIN: int := -0x8000_0000
  const MAX: int := 0x7fff_ffff
  const MODULUS: int := 0x1_0000_0000

  type int32 = x: int | -0x8000_0000 <= x < 0x8000_0000

  /**
   * `Long.toInt()`: keeps the low 32 bits of the value and reads them as a
   * two's-complement signed integer.
   */
  function FromLong(v: int): (r: int32)
    ensures (r - v) % MODULUS == 0
    ensures MIN <= v <= MAX ==> r == v
  {
    var w := v % MODULUS;
    if w <= MAX then w else w - MODULUS
  }
}
