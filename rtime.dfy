/**
 * Wrapping time arithmetic (samc21/rtime.h): times are uint32_t
 * microsecond counts that wrap around, compared through their signed
 * 32-bit difference.
 */
module RTime {
  import opened Machine

  type Time = U32

  /** Time_Add: uint32_t addition, wrapping at 2^32. */
  function Add(t1: Time, t2: Time): (r: Time)
    ensures (r - (t1 + t2)) % 0x1_0000_0000 == 0
  {
    ToU32(t1 + t2)
  }

  /**
   * Time_Sub: both times are converted to int32_t and subtracted; the
   * int32_t subtraction is taken to wrap, as the compiler's does.
   */
  function Sub(t1: Time, t2: Time): (r: I32)
  {
    ToI32(ToI32(t1) - ToI32(t2))
  }

  predicate Gt(t1: Time, t2: Time) { Sub(t1, t2) > 0 }
  predicate Ge(t1: Time, t2: Time) { Sub(t1, t2) >= 0 }
  predicate Lt(t1: Time, t2: Time) { Sub(t1, t2) < 0 }
  predicate Le(t1: Time, t2: Time) { Sub(t1, t2) <= 0 }

  /** Two numbers congruent modulo 2^32 have the same int32_t value. */
  lemma ToI32Congruent(x: int, y: int)
    requires (x - y) % 0x1_0000_0000 == 0
    ensures ToI32(x) == ToI32(y)
  {
    var m := 0x1_0000_0000;
    var k := (x - y) / m;
    assert x - y == k * m;
    assert x + 0x8000_0000 == (y + 0x8000_0000) + k * m;
    ModShift(y + 0x8000_0000, k, m);
  }

  /** int32_t conversion keeps a number's residue modulo 2^32. */
  lemma ToI32Residue(x: int)
    ensures (ToI32(x) - x) % 0x1_0000_0000 == 0
  {
    var m := 0x1_0000_0000;
    var q := (x + 0x8000_0000) / m;
    assert ToI32(x) - x == -q * m;
    ModUnique(ToI32(x) - x, -q, m, 0);
  }

  /** Time_Sub is the true difference of two times reduced to the int32_t range. */
  lemma SubIsWrappedDifference(t1: Time, t2: Time)
    ensures Sub(t1, t2) == ToI32(t1 - t2)
  {
    var m := 0x1_0000_0000;
    ToI32Residue(t1);
    ToI32Residue(t2);
    var a := ToI32(t1) - t1;
    var b := ToI32(t2) - t2;
    var d := ToI32(t1) - ToI32(t2) - (t1 - t2);
    assert d == a - b;
    assert d % m == 0 by {
      var ka := a / m;
      var kb := b / m;
      assert a == ka * m && b == kb * m;
      assert d == (ka - kb) * m;
      ModUnique(d, ka - kb, m, 0);
    }
    ToI32Congruent(ToI32(t1) - ToI32(t2), t1 - t2);
  }

  /**
   * The comparisons agree with the order of the unwrapped times whenever
   * these are less than 2^31 apart: a and b are true (unbounded) times and
   * the counters hold them modulo 2^32.
   */
  lemma OrderAgrees(a: int, b: int)
    requires -0x8000_0000 < a - b < 0x8000_0000
    ensures Sub(ToU32(a), ToU32(b)) == a - b
    ensures Gt(ToU32(a), ToU32(b)) <==> a > b
    ensures Ge(ToU32(a), ToU32(b)) <==> a >= b
    ensures Lt(ToU32(a), ToU32(b)) <==> a < b
    ensures Le(ToU32(a), ToU32(b)) <==> a <= b
  {
    var m := 0x1_0000_0000;
    SubIsWrappedDifference(ToU32(a), ToU32(b));
    assert (ToU32(a) - ToU32(b) - (a - b)) % m == 0 by {
      var qa := a / m;
      var qb := b / m;
      assert ToU32(a) == a - qa * m && ToU32(b) == b - qb * m;
      assert ToU32(a) - ToU32(b) - (a - b) == (qb - qa) * m;
      ModUnique(ToU32(a) - ToU32(b) - (a - b), qb - qa, m, 0);
    }
    ToI32Congruent(ToU32(a) - ToU32(b), a - b);
  }

  /** Adding a delay below 2^31 and subtracting gives the delay back. */
  lemma AddSubRoundTrip(t: Time, d: Time)
    requires d < 0x8000_0000
    ensures Sub(Add(t, d), t) == d && Ge(Add(t, d), t)
  {
    OrderAgrees(t + d, t);
  }

  /** Adding the (non-negative) difference of two times to the earlier gives the later. */
  lemma AddSubInverse(t: Time, s: Time)
    requires Sub(s, t) >= 0
    ensures Add(t, Sub(s, t)) == s
  {
    var m := 0x1_0000_0000;
    var d := Sub(s, t);
    SubIsWrappedDifference(s, t);
    ToI32Residue(s - t);
    var k := (d - (s - t)) / m;
    assert d - (s - t) == k * m;
    assert t + d == k * m + s;
    ModUnique(t + d, k, m, s);
  }

  /** Le is reflexive and Lt irreflexive. */
  lemma ReflexiveOrder(t: Time)
    ensures Le(t, t) && Ge(t, t) && !Lt(t, t) && !Gt(t, t)
  {
  }
}
