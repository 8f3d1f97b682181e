/**
 Fixed-width integers and the bitwise operators of C++, on natural numbers.

 The operators are defined bit by bit, so that a mask or a disjoint "or" is only
 known to act like arithmetic where a lemma below proves it.
 */
module Bits {

  type uint8 = x: int | 0 <= x < 0x100
  type uint16 = x: int | 0 <= x < 0x1_0000
  type uint32 = x: int | 0 <= x < 0x1_0000_0000
  type int32 = x: int | -0x8000_0000 <= x < 0x8000_0000

  const UINT32_RANGE := 0x1_0000_0000

  /** Conversion of any integer to uint32_t: reduction modulo 2^32. */
  function AsUint32(x: int): uint32 { x % UINT32_RANGE }

  /** Conversion of any integer to int32_t in two's complement. */
  function AsInt32(x: int): int32 {
    var u := x % UINT32_RANGE;
    if u < 0x8000_0000 then u else u - UINT32_RANGE
  }

  function Pow2(n: nat): (p: nat)
    ensures p >= 1
  {
    if n == 0 then 1 else 2 * Pow2(n - 1)
  }

  /** Bitwise "and": a bit is set where it is set in both. */
  function And(x: nat, y: nat): nat {
    if x == 0 then 0
    else 2 * And(x / 2, y / 2) + (if x % 2 == 1 && y % 2 == 1 then 1 else 0)
  }

  /** Bitwise "or": a bit is set where it is set in either. */
  function Or(x: nat, y: nat): nat
    decreases x + y
  {
    if x == 0 && y == 0 then 0
    else 2 * Or(x / 2, y / 2) + (if x % 2 == 1 || y % 2 == 1 then 1 else 0)
  }

  /** x << n on uint32_t: bits pushed past bit 31 are lost. */
  function ShiftLeft(x: uint32, n: nat): uint32 { AsUint32(x * Pow2(n)) }

  /** x >> n on uint32_t. */
  function ShiftRight(x: uint32, n: nat): uint32 {
    ShiftRightShrinks(x, n);
    x / Pow2(n)
  }

  lemma ShiftRightShrinks(x: nat, n: nat)
    ensures 0 <= x / Pow2(n) <= x
  {
    DivShrinks(x, Pow2(n));
  }

  lemma DivShrinks(x: nat, d: int)
    requires d > 0
    ensures 0 <= x / d <= x
  {
    var q := x / d;
    assert x == q * d + x % d;
    if q > 0 {
      MulAtLeast(d, q);
    }
  }

  lemma MulAtLeast(a: int, d: int)
    requires a >= 1 && d >= 0
    ensures a * d >= d
  {
    assert a * d == (a - 1) * d + d;
    assert (a - 1) * d >= 0;
  }

  /** The mask (1 << n) - 1, computed on int32_t and then converted. */
  function Mask(n: nat): uint32 { LowBits(Pow2(n)) }

  function LowBits(power: nat): uint32 { AsUint32(AsInt32(AsInt32(power) - 1)) }

  lemma {:induction false} Pow2Sum(m: nat, n: nat)
    ensures Pow2(m + n) == Pow2(m) * Pow2(n)
  {
    if m != 0 {
      Pow2Sum(m - 1, n);
      DoubleProduct(Pow2(m - 1), Pow2(n));
    }
  }

  lemma DoubleProduct(x: nat, y: nat)
    ensures 2 * (x * y) == (2 * x) * y
  {
  }

  lemma Pow2Of31()
    ensures Pow2(31) == 0x8000_0000
  {
    assert Pow2(8) == 0x100;
    Pow2Sum(8, 8);
    Pow2Sum(16, 8);
    assert Pow2(7) == 0x80;
    Pow2Sum(24, 7);
  }

  lemma {:induction false} Pow2Below(n: nat)
    requires n <= 31
    ensures Pow2(n) <= 0x8000_0000
  {
    Pow2Sum(n, 31 - n);
    Pow2Of31();
    MulAtLeast(Pow2(31 - n), Pow2(n));
  }

  /** For every width below 32 the mask has exactly the low bits set, through its signed intermediate values. */
  lemma MaskValue(n: nat)
    requires n <= 31
    ensures Mask(n) == Pow2(n) - 1
  {
    Pow2Below(n);
    LowBitsValue(Pow2(n));
  }

  lemma LowBitsValue(power: nat)
    requires 1 <= power <= 0x8000_0000
    ensures LowBits(power) == power - 1
  {
  }

  lemma ModDouble(x: nat, p: nat)
    requires p >= 1
    ensures x % (2 * p) == 2 * (x / 2 % p) + x % 2
  {
    var h := x / 2;
    var q, r := h / p, h % p;
    assert h == q * p + r;
    assert x == 2 * h + x % 2;
    assert x == q * (2 * p) + (2 * r + x % 2);
    ModUnique(x, 2 * p, q, 2 * r + x % 2);
  }

  lemma ModUnique(x: int, d: int, q: int, r: int)
    requires d > 0 && 0 <= r < d && x == q * d + r
    ensures x / d == q && x % d == r
  {
    var q', r' := x / d, x % d;
    assert x == q' * d + r';
    assert (q' - q) * d == r - r' && (q - q') * d == r' - r;
    if q < q' {
      MulAtLeast(q' - q, d);
    } else if q' < q {
      MulAtLeast(q - q', d);
    }
  }

  /** Masking with n low bits is reduction modulo 2^n. */
  lemma {:induction false} AndMask(x: nat, n: nat)
    ensures And(x, Pow2(n) - 1) == x % Pow2(n)
  {
    hide And;
    if n == 0 {
      AndZero(x);
    } else if x == 0 {
      ZeroAnd(Pow2(n) - 1);
    } else {
      var p := Pow2(n - 1);
      AndOddMask(x, p);
      AndMask(x / 2, n - 1);
      ModDouble(x, p);
    }
  }

  lemma ZeroAnd(y: nat)
    ensures And(0, y) == 0
  {
  }

  lemma AndOddMask(x: nat, p: nat)
    requires x > 0 && p > 0
    ensures And(x, 2 * p - 1) == 2 * And(x / 2, p - 1) + x % 2
  {
    assert (2 * p - 1) / 2 == p - 1 && (2 * p - 1) % 2 == 1;
  }

  lemma {:induction false} AndZero(x: nat)
    ensures And(x, 0) == 0
  {
    if x != 0 {
      AndZero(x / 2);
    }
  }

  lemma {:induction false} OrZero(x: nat)
    ensures Or(x, 0) == x
  {
    if x != 0 {
      OrZero(x / 2);
    }
  }

  /** "Or" adds when the left operand has its n low bits clear and the right one has no others. */
  lemma {:induction false} OrDisjoint(x: nat, y: nat, n: nat)
    requires y < Pow2(n)
    ensures x * Pow2(n) >= 0
    ensures Or(x * Pow2(n), y) == x * Pow2(n) + y
  {
    if n == 0 {
      OrZero(x);
    } else {
      var p := Pow2(n - 1);
      var high := x * p;
      assert x * Pow2(n) == 2 * high;
      assert high >= 0;
      OrDisjoint(x, y / 2, n - 1);
      if high == 0 && y == 0 {
      } else {
        assert Or(2 * high, y) == 2 * Or(high, y / 2) + y % 2;
      }
    }
  }
}
