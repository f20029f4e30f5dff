/**
 * Machine words of the firmware's C compiler (32-bit ARM Cortex-M0+):
 * unsigned and signed fixed-width integers and their wrap-around, and the
 * modular-arithmetic facts the rest of the model leans on.
 */
module Machine {
  type Byte = bv8
  type U8 = x: int | 0 <= x < 0x100
  type U16 = x: int | 0 <= x < 0x1_0000
  type U32 = x: int | 0 <= x < 0x1_0000_0000
  type I8 = x: int | -0x80 <= x < 0x80
  type I16 = x: int | -0x8000 <= x < 0x8000
  type I32 = x: int | -0x8000_0000 <= x < 0x8000_0000

  /** Conversion of any integer to uint8_t (keeps the low eight bits). */
  function ToU8(x: int): (r: U8)
    ensures 0 <= x < 0x100 ==> r == x
  { x % 0x100 }

  /** Conversion of any integer to uint16_t. */
  function ToU16(x: int): (r: U16)
    ensures 0 <= x < 0x1_0000 ==> r == x
  { x % 0x1_0000 }

  /** Conversion of any integer to uint32_t. */
  function ToU32(x: int): (r: U32)
    ensures 0 <= x < 0x1_0000_0000 ==> r == x
  { x % 0x1_0000_0000 }

  /** Conversion of any integer to int8_t (two's complement wrap-around). */
  function ToI8(x: int): (r: I8)
    ensures -0x80 <= x < 0x80 ==> r == x
    ensures (r - x) % 0x100 == 0
  { (x + 0x80) % 0x100 - 0x80 }

  /** Conversion of any integer to int32_t (two's complement wrap-around). */
  function ToI32(x: int): (r: I32)
    ensures -0x8000_0000 <= x < 0x8000_0000 ==> r == x
  { (x + 0x8000_0000) % 0x1_0000_0000 - 0x8000_0000 }

  /** C's `/` on int: the quotient is truncated toward zero. */
  function CDiv(a: int, b: int): (q: int)
    requires b > 0
    ensures a >= 0 ==> q == a / b
    ensures a < 0 ==> q == -((-a) / b)
  { if a >= 0 then a / b else -((-a) / b) }

  function ByteOf(x: U8): Byte { x as Byte }
  function ValueOf(b: Byte): U8 { b as int }

  /** Every value in 0..255 is the value of some byte (counting up from zero). */
  lemma {:induction false} HasByte(x: int) returns (b: Byte)
    requires 0 <= x < 0x100
    ensures b as int == x
  {
    if x == 0 {
      b := 0;
    } else {
      var c := HasByte(x - 1);
      b := c + 1;
    }
  }

  /** A value in 0..255 survives the trip to a byte and back. */
  lemma ByteRoundTrip(x: int)
    requires 0 <= x < 0x100
    ensures (x as Byte) as int == x
  {
    var b := HasByte(x);
    assert x as Byte == b;
  }

  lemma MulGe(t: int, s: int)
    requires t >= 1 && s > 0
    ensures t * s >= s
  {
    var u := t - 1;
    assert t * s == u * s + s;
    assert u * s >= 0;
  }

  lemma MulLe(a: int, b: int, c: int)
    requires a <= b && c >= 0
    ensures a * c <= b * c
  {
  }

  lemma MulLtCancel(a: int, b: int, r: int)
    requires r > 0 && r * a < r * b
    ensures a < b
  {
  }

  /** Division with remainder is unique. */
  lemma ModUnique(y: int, d: int, s: int, r: int)
    requires s > 0 && 0 <= r < s && y == d * s + r
    ensures y % s == r
  {
    var q := y / s;
    var r' := y % s;
    assert y == q * s + r';
    var t := d - q;
    assert t * s == d * s - q * s;
    assert t * s == r' - r;
    if t >= 1 { MulGe(t, s); }
    else if t <= -1 { MulGe(-t, s); }
  }

  lemma ModShift(x: int, m: int, s: int)
    requires s > 0
    ensures (x + m * s) % s == x % s
  {
    var q := x / s;
    assert x == q * s + x % s;
    assert x + m * s == (q + m) * s + x % s;
    ModUnique(x + m * s, q + m, s, x % s);
  }

  /** Residues modulo s of two numbers that differ by d. */
  lemma ModAdd(a: int, d: int, s: int)
    requires s > 0
    ensures (a + d) % s == (a % s + d) % s
  {
    var q := a / s;
    assert a == q * s + a % s;
    assert a + d == (a % s + d) + q * s;
    ModShift(a % s + d, q, s);
  }
}
