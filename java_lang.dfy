/**
 * The parts of Java's semantics the camera code relies on: 32- and 64-bit
 * two's-complement arithmetic, integer division that truncates toward zero,
 * and the exceptions the modelled code can throw, carried as values.
 */
module JavaLang {

  const TWO_32: int := 0x1_0000_0000
  const TWO_64: int := 0x1_0000_0000_0000_0000

  /** A Java `int`. */
  type Int32 = x: int | -0x8000_0000 <= x < 0x8000_0000

  /** A Java `long`. */
  type Int64 = x: int | -0x8000_0000_0000_0000 <= x < 0x8000_0000_0000_0000

  /** The exceptions the modelled code can raise. */
  datatype Fault =
    | ArithmeticException      // integer division by zero
    | ArrayIndexOutOfBounds    // an array read past its end
    | NoSuchElement            // Collections.max on an empty list
    | NullPointer              // a member access through a null reference
    | CameraAccess             // CameraAccessException thrown by this code
    | OpenLockTimeout          // the RuntimeException thrown when the open lock is not obtained

  datatype Option<+T> = None | Some(value: T)

  datatype Result<+T> = Ok(value: T) | Err(fault: Fault)

  /** The value Java keeps of an exact integer result in an `int`. */
  function Wrap32(x: int): (r: Int32)
    ensures (x - r) % TWO_32 == 0
    ensures -0x8000_0000 <= x < 0x8000_0000 ==> r == x
  {
    (x + 0x8000_0000) % TWO_32 - 0x8000_0000
  }

  /** The value Java keeps of an exact integer result in a `long`. */
  function Wrap64(x: int): (r: Int64)
    ensures (x - r) % TWO_64 == 0
    ensures -0x8000_0000_0000_0000 <= x < 0x8000_0000_0000_0000 ==> r == x
  {
    (x + 0x8000_0000_0000_0000) % TWO_64 - 0x8000_0000_0000_0000
  }

  function Abs(x: int): nat
  {
    if x < 0 then -x else x
  }

  /**
   * Integer division rounding toward zero, as Java's `/` does: the
   * remainder is smaller than the divisor in magnitude and, when not zero,
   * has the sign of the dividend.
   */
  function TruncDiv(a: int, b: int): (q: int)
    requires b != 0
    ensures Abs(a - q * b) < Abs(b)
    ensures a - q * b == 0 || (a - q * b < 0 <==> a < 0)
  {
    if a >= 0 && b > 0 then a / b
    else if a >= 0 then -(a / -b)
    else if b > 0 then -((-a) / b)
    else (-a) / (-b)
  }

  /** Java's `int * int`. */
  function MulInt(a: Int32, b: Int32): Int32
  {
    Wrap32(a * b)
  }

  /** Java's `int / int`; the divisor must not be zero (the caller checks, or raises). */
  function DivInt(a: Int32, b: Int32): Int32
    requires b != 0
  {
    Wrap32(TruncDiv(a, b))
  }

  /** Java's `long * long`. */
  function MulLong(a: Int64, b: Int64): Int64
  {
    Wrap64(a * b)
  }

  /** Java's `long - long`. */
  function SubLong(a: Int64, b: Int64): Int64
  {
    Wrap64(a - b)
  }

  /** `Long.signum`. */
  function Signum(x: int): (s: int)
    ensures s == -1 || s == 0 || s == 1
    ensures s < 0 <==> x < 0
    ensures s == 0 <==> x == 0
  {
    if x < 0 then -1 else if x == 0 then 0 else 1
  }
}
