/** Small value types shared by every module of the model. */
module Common {

  /** A value that may be absent; stands for Kotlin's nullable types. */
  datatype Option<+T> = None | Some(value: T)

  /** An octet, as carried by java.io streams. */
  newtype byte = b: int | 0 <= b < 256

  /** Bounds of a Kotlin/JVM `Int`. */
  const IntMin: int := -0x8000_0000
  const IntMax: int := 0x7fff_ffff
}
