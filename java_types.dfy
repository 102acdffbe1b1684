/** Java's fixed-width integer types, for the fields and parameters whose width matters. */
module JavaTypes {

  const INT_MIN: int := -0x8000_0000
  const INT_MAX: int := 0x7fff_ffff

  /** A Java `int`. */
  newtype int32 = x: int | -0x8000_0000 <= x < 0x8000_0000

  /** A Java `long`. */
  newtype int64 = x: int | -0x8000_0000_0000_0000 <= x < 0x8000_0000_0000_0000

  /** True when `x` can be held by a Java `int` without wrapping around. */
  predicate FitsInt(x: int)
  {
    INT_MIN <= x <= INT_MAX
  }
}
