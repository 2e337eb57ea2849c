/** Java integer semantics that differ from Dafny's unbounded, Euclidean ones. */
module JavaInt {

  const INT_MIN: int := -0x8000_0000
  const INT_MAX: int := 0x7FFF_FFFF
  const LONG_MIN: int := -0x8000_0000_0000_0000
  const LONG_MAX: int := 0x7FFF_FFFF_FFFF_FFFF

  predicate IsInt32(x: int) { INT_MIN <= x <= INT_MAX }

  /** One memory byte, held as its unsigned value (`b & 0xFF`). */
  newtype Byte = b: int | 0 <= b < 256

  function Abs(x: int): nat { if x < 0 then -x else x }

  function Min(a: int, b: int): int { if a <= b then a else b }

  function Max(a: int, b: int): int { if a >= b then a else b }

  /** Java's `a / b` on integers: the quotient rounded toward zero. */
  function Quot(a: int, b: int): (q: int)
    requires b != 0
    ensures (a >= 0) == (b > 0) ==> q >= 0
    ensures (a >= 0) != (b > 0) ==> q <= 0
  {
    var d := Abs(a) / Abs(b);
    if (a >= 0) == (b > 0) then d else -d
  }

  /** Java's `a % b`: the remainder that goes with `Quot`, carrying the sign of `a`. */
  function Rem(a: int, b: int): (r: int)
    requires b != 0
    ensures a == b * Quot(a, b) + r
    ensures Abs(r) < Abs(b)
    ensures r != 0 ==> (r > 0 <==> a > 0)
  {
    QuotRemLemma(a, b);
    a - b * Quot(a, b)
  }

  /** Dividing a multiple of 4 by 4 truncates nothing. */
  lemma QuotExactByFour(a: int)
    requires a % 4 == 0
    ensures 4 * Quot(a, 4) == a
  {
    if a < 0 {
      assert Abs(a) == -a;
      assert (-a) % 4 == 0;
    }
  }

  lemma {:induction false} QuotRemLemma(a: int, b: int)
    requires b != 0
    ensures Abs(a - b * Quot(a, b)) < Abs(b)
    ensures a - b * Quot(a, b) != 0 ==> (a - b * Quot(a, b) > 0 <==> a > 0)
  {
    var q := Abs(a) / Abs(b);
    var m := Abs(a) % Abs(b);
    assert Abs(a) == Abs(b) * q + m;
    if a >= 0 && b > 0 {
      assert a - b * Quot(a, b) == m;
    } else if a >= 0 {
      assert Quot(a, b) == -q;
      assert a - b * Quot(a, b) == a - (-b) * q;
      assert a - b * Quot(a, b) == m;
    } else if b > 0 {
      assert Quot(a, b) == -q;
      assert a - b * Quot(a, b) == -m;
    } else {
      assert Quot(a, b) == q;
      assert a - b * Quot(a, b) == -m;
    }
  }

  /** Java's narrowing `(long) d` of an integral double: saturates at the ends of the long range. */
  function LongOf(x: int): (r: int)
    ensures LONG_MIN <= r <= LONG_MAX
    ensures LONG_MIN <= x <= LONG_MAX ==> r == x
    ensures x < LONG_MIN ==> r == LONG_MIN
    ensures x > LONG_MAX ==> r == LONG_MAX
  {
    if x < LONG_MIN then LONG_MIN else if x > LONG_MAX then LONG_MAX else x
  }

  const TWO_TO_32: int := 0x1_0000_0000

  /** Java's narrowing `(int) d` of an integral double: saturates at the ends of the int range. */
  function IntOf(x: int): (r: int)
    ensures IsInt32(r)
    ensures IsInt32(x) ==> r == x
    ensures x < INT_MIN ==> r == INT_MIN
    ensures x > INT_MAX ==> r == INT_MAX
  {
    if x < INT_MIN then INT_MIN else if x > INT_MAX then INT_MAX else x
  }

  /** Java's 32-bit `int` arithmetic: the result is taken modulo 2^32 into the signed range. */
  function Wrap32(x: int): (r: int)
    ensures IsInt32(r)
    ensures (x - r) % TWO_TO_32 == 0
    ensures IsInt32(x) ==> r == x
  {
    (x - INT_MIN) % TWO_TO_32 + INT_MIN
  }

  /** With a positive divisor, the truncated quotient is positive exactly when the dividend
      holds the divisor at least once. */
  lemma QuotPositive(a: int, b: int)
    requires b != 0
    ensures b > 0 ==> (Quot(a, b) > 0 <==> a >= b)
  {
    if b > 0 && a >= 0 {
      QuotOfNonNegative(a, b);
    }
  }

  /** A sum that passes `INT_MAX` by less than 2^32 comes back around once, into the negatives. */
  lemma WrapAbove(x: int)
    requires INT_MAX < x <= INT_MAX + TWO_TO_32
    ensures Wrap32(x) == x - TWO_TO_32
  {
    var r := Wrap32(x);
    assert (x - r) % TWO_TO_32 == 0;
    assert 0 < x - r < 2 * TWO_TO_32;
  }

  /** `(int) base + imm`, the effective address of a load or store. */
  function EffectiveAddress(base: int, imm: int): (r: int)
    ensures IsInt32(r)
    ensures IsInt32(base) && IsInt32(base + imm) ==> r == base + imm
  {
    Wrap32(IntOf(base) + imm)
  }

  /** Quotient and remainder of `Quot`/`Rem` agree with Euclidean division on non-negative operands. */
  lemma {:induction false} QuotOfNonNegative(a: int, b: int)
    requires a >= 0 && b > 0
    ensures Quot(a, b) == a / b && Rem(a, b) == a % b
  {
    assert a == b * (a / b) + a % b;
    assert a == b * Quot(a, b) + Rem(a, b);
  }
}
