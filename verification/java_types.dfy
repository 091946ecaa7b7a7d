/** Java's fixed-width integer types, as far as the model uses them. */
module JavaTypes {

  /** Java's `int`. */
  newtype int32 = x: int | -0x8000_0000 <= x < 0x8000_0000

  /** Java's `byte`. */
  newtype int8 = x: int | -0x80 <= x < 0x80
}
