/** Java's 32-bit and 64-bit two's-complement integers. */
module JavaInt {

  const TWO_32: int := 0x1_0000_0000
  const TWO_64: int := 0x1_0000_0000_0000_0000

  type int32 = x: int | -0x8000_0000 <= x < 0x8000_0000
  type int64 = x: int | -0x8000_0000_0000_0000 <= x < 0x8000_0000_0000_0000

  predicate InInt32(x: int) { -0x8000_0000 <= x < 0x8000_0000 }
  predicate InInt64(x: int) { -0x8000_0000_0000_0000 <= x < 0x8000_0000_0000_0000 }

  /** The Java `int` a 32-bit operation yields for the mathematical value x. */
  function Wrap32(x: int): (r: int32)
    ensures (r - x) % TWO_32 == 0
    ensures InInt32(x) ==> r == x
  {
    ((x + 0x8000_0000) % TWO_32) - 0x8000_0000
  }

  /** Java's `int` subtraction `a - b`: the difference, wrapped once when it leaves the
      `int` range. */
  function Sub32(a: int32, b: int32): (r: int32)
    ensures InInt32(a - b) ==> r == a - b
    ensures a - b >= 0x8000_0000 ==> r == a - b - TWO_32
    ensures a - b < -0x8000_0000 ==> r == a - b + TWO_32
  {
    if a - b >= 0x8000_0000 then a - b - TWO_32
    else if a - b < -0x8000_0000 then a - b + TWO_32
    else a - b
  }

  /** Java's `int` addition `a + b`: the sum, wrapped once when it leaves the `int` range. */
  function Add32(a: int32, b: int32): (r: int32)
    ensures InInt32(a + b) ==> r == a + b
    ensures a + b >= 0x8000_0000 ==> r == a + b - TWO_32
    ensures a + b < -0x8000_0000 ==> r == a + b + TWO_32
  {
    if a + b >= 0x8000_0000 then a + b - TWO_32
    else if a + b < -0x8000_0000 then a + b + TWO_32
    else a + b
  }

  /** `int` addition is the 32-bit wrap of the mathematical sum. */
  lemma Add32Wraps(a: int32, b: int32)
    ensures Add32(a, b) == Wrap32(a + b)
  {
  }

  /** Two `int`s that agree modulo 2^32 are the same `int`. */
  lemma Wrap32Unique(x: int, y: int)
    requires (x - y) % TWO_32 == 0
    ensures Wrap32(x) == Wrap32(y)
  {
    var d := Wrap32(x) - Wrap32(y);
    assert (Wrap32(x) - x) % TWO_32 == 0 && (Wrap32(y) - y) % TWO_32 == 0;
    assert d % TWO_32 == 0 by {
      assert d == (Wrap32(x) - x) - (Wrap32(y) - y) + (x - y);
    }
    assert -TWO_32 < d < TWO_32;
  }

  /** `int` subtraction is the 32-bit wrap of the mathematical difference. */
  lemma Sub32Wraps(a: int32, b: int32)
    ensures Sub32(a, b) == Wrap32(a - b)
  {
  }

  /** The Java `long` a 64-bit operation yields for the mathematical value x. */
  function Wrap64(x: int): (r: int64)
    ensures (r - x) % TWO_64 == 0
    ensures InInt64(x) ==> r == x
  {
    ((x + 0x8000_0000_0000_0000) % TWO_64) - 0x8000_0000_0000_0000
  }

  /** Java's arithmetic shift `x >> 4`: rounds towards negative infinity. */
  function ShiftRight4(x: int32): (r: int32)
    ensures r * 16 <= x < r * 16 + 16
  {
    x / 16
  }

  function Min(a: int, b: int): (r: int)
    ensures r <= a && r <= b && (r == a || r == b)
  {
    if a <= b then a else b
  }

  function Max(a: int, b: int): (r: int)
    ensures r >= a && r >= b && (r == a || r == b)
  {
    if a >= b then a else b
  }

  /** Arithmetic shift right by 4 is monotone: chunk indices keep the order of block coordinates. */
  lemma ShiftRight4Monotone(a: int32, b: int32)
    requires a <= b
    ensures ShiftRight4(a) <= ShiftRight4(b)
  {
  }
}
