/** Small value types shared by every module of the model. */
module Common {

  /** Kotlin's nullable values (`T?`). */
  datatype Option<+T> = None | Some(value: T) {
    function GetOr(default: T): T {
      match this
      case Some(v) => v
      case None => default
    }
  }

  /** A computation that either yields a value or fails the way the source throws. */
  datatype Result<+T, +E> = Ok(value: T) | Err(error: E)

  /** Kotlin `Int`: a 32-bit two's-complement integer. */
  const INT_MIN: int := -0x8000_0000
  const INT_MAX: int := 0x7fff_ffff

  predicate IsInt32(x: int) { INT_MIN <= x <= INT_MAX }

  /** `Long.toInt()`: keeps the low 32 bits and reinterprets them as signed. */
  function ToInt32(x: int): (r: int)
    ensures IsInt32(r)
    ensures IsInt32(x) ==> r == x
    ensures (r - x) % 0x1_0000_0000 == 0
  {
    var low := x % 0x1_0000_0000;
    if low <= INT_MAX then low else low - 0x1_0000_0000
  }
}
