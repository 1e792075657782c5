/** The JVM's fixed-width numeric types, as ranges of unbounded integers and,
    for floating point, as raw IEEE 754 bit patterns (no arithmetic on them). */
module Numerics {

  type Int8 = x: int | -0x80 <= x < 0x80
  type Int16 = x: int | -0x8000 <= x < 0x8000
  type Int32 = x: int | -0x8000_0000 <= x < 0x8000_0000
  type Int64 = x: int | -0x8000_0000_0000_0000 <= x < 0x8000_0000_0000_0000

  /** A Java `char`: one UTF-16 code unit. */
  type Char16 = x: int | 0 <= x < 0x1_0000

  /** An IEEE 754 binary32 value (Java `float`), by bit pattern. */
  datatype Float32 = Float32(bits: bv32) {
    /** The exponent field is all ones: `Float.isInfinite(f) || Float.isNaN(f)`. */
    predicate IsInfiniteOrNaN() {
      bits & 0x7F80_0000 == 0x7F80_0000
    }
  }

  /** An IEEE 754 binary64 value (Java `double`, the JS number), by bit pattern. */
  datatype Float64 = Float64(bits: bv64)
}
