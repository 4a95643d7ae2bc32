/** Small shared definitions: optional values (Java's nullable references) and
    the JVM's fixed-width integers. */
module Support {

  /** A nullable reference: None stands for Java's null. */
  datatype Option<+T> = None | Some(value: T)

  /** Java/Kotlin `int`. */
  type int32 = x: int | -0x8000_0000 <= x < 0x8000_0000

  /** Java/Kotlin `long`. */
  type int64 = x: int | -0x8000_0000_0000_0000 <= x < 0x8000_0000_0000_0000

  /** `x++` on a Java `int`: two's-complement increment, wrapping at the top. */
  function Inc32(x: int32): (r: int32)
    ensures (r - x - 1) % 0x1_0000_0000 == 0
    ensures x < 0x7fff_ffff ==> r > x
  {
    if x == 0x7fff_ffff then -0x8000_0000 else x + 1
  }
}
