/**
 * The C and SDL value types shared by the timer, camera, scene and input models.
 *
 * C's fixed-width integers are subset types of `int`, so every place where the
 * source relies on wrap-around or truncation has to say so explicitly
 * (Wrap32 for unsigned 32-bit arithmetic, CHalf for halving towards zero).
 */
module SdlTypes {

  type u8 = x: int | 0 <= x < 0x100
  type u16 = x: int | 0 <= x < 0x1_0000
  type i16 = x: int | -0x8000 <= x < 0x8000
  type u32 = x: int | 0 <= x < 0x1_0000_0000
  type i32 = x: int | -0x8000_0000 <= x < 0x8000_0000

  const TwoTo32: int := 0x1_0000_0000

  /** A C pointer that may be NULL, for values the model treats as opaque. */
  datatype Option<T> = None | Some(value: T)

  /**
   * A `Uint32` bit mask, as the set of the positions of its one bits.
   * `a | b` is `a + b`, `a & b` is `a * b`, `1 << x` is `{x}` and `m & (1 << x) != 0` is `x in m`.
   */
  type Mask32 = s: set<nat> | forall i :: i in s ==> i < 32

  /** SDL_Point: two C ints. */
  datatype Point = Point(x: i32, y: i32)

  /** SDL_Rect: position and size, four C ints. */
  datatype Rect = Rect(x: i32, y: i32, w: i32, h: i32)

  /** Reduction modulo 2^32: what storing an int into a Uint32 does. */
  function Wrap32(x: int): (r: u32)
    ensures (r - x) % TwoTo32 == 0
  {
    x % TwoTo32
  }

  /** Unsigned 32-bit subtraction, as `a - b` on two Uint32 operands in C. */
  function Sub32(a: u32, b: u32): (r: u32)
    ensures a >= b ==> r == a - b
    ensures a < b ==> r == a - b + TwoTo32
  {
    Wrap32(a - b)
  }

  /** Unsigned 32-bit addition. */
  function Add32(a: u32, b: u32): (r: u32)
    ensures a + b < TwoTo32 ==> r == a + b
    ensures a + b >= TwoTo32 ==> r == a + b - TwoTo32
  {
    Wrap32(a + b)
  }

  /** C's `a / 2` on an int: the quotient is truncated towards zero (Dafny's `/` is Euclidean). */
  function CHalf(a: int): (q: int)
    ensures a >= 0 ==> 0 <= 2 * q <= a <= 2 * q + 1
    ensures a < 0 ==> 2 * q - 1 <= a <= 2 * q <= 0
  {
    if a >= 0 then a / 2 else -((-a) / 2)
  }
}
