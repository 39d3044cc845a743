/**
  The part of C#'s 32-bit signed `int` that the spam filter uses, in an
  unchecked context: `+`, `*` and `<<` wrap around modulo 2^32, `>>` is the
  arithmetic (sign-extending) shift, `^` works on the two's-complement bits,
  `%` truncates toward zero, and `Math.Abs` throws on `int.MinValue`.
*/
module CSharpInt {

  const MinValue: int := -0x8000_0000
  const MaxValue: int := 0x7FFF_FFFF

  /** C#'s `int`, by value. */
  type int32 = x: int | -0x8000_0000 <= x <= 0x7FFF_FFFF

  /** The magnitude of a mathematical integer. */
  function AbsInt(x: int): nat {
    if x < 0 then -x else x
  }

  /** Two's-complement truncation of a mathematical integer to 32 bits. */
  function Wrap(x: int): (r: int32)
    ensures (r - x) % 0x1_0000_0000 == 0
    ensures MinValue <= x <= MaxValue ==> r == x
  {
    (x + 0x8000_0000) % 0x1_0000_0000 - 0x8000_0000
  }

  /** `a + b` on `int`, unchecked: the exact sum when it fits, otherwise wrapped around. */
  function WrapAdd(a: int32, b: int32): (r: int32)
    ensures (r - (a + b)) % 0x1_0000_0000 == 0
    ensures MinValue <= a + b <= MaxValue ==> r == a + b
  {
    Wrap(a + b)
  }

  /** `a * b` on `int`, unchecked: the exact product when it fits, otherwise wrapped around. */
  function WrapMul(a: int32, b: int32): (r: int32)
    ensures (r - a * b) % 0x1_0000_0000 == 0
    ensures MinValue <= a * b <= MaxValue ==> r == a * b
  {
    Wrap(a * b)
  }

  /** 2^n. */
  function Pow2(n: nat): (p: nat)
    ensures p >= 1
  {
    if n == 0 then 1 else 2 * Pow2(n - 1)
  }

  /** `a << n` on `int`: the bits shifted out at the top are lost. */
  function ShiftLeft(a: int32, n: nat): (r: int32)
    requires n < 32
    ensures (r - a * Pow2(n)) % 0x1_0000_0000 == 0
    ensures MinValue <= a * Pow2(n) <= MaxValue ==> r == a * Pow2(n)
  {
    Wrap(a * Pow2(n))
  }

  /**
    `a >> n` on `int`: the arithmetic shift, which copies the sign bit into the
    vacated high bits. That is halving `n` times, rounding toward negative
    infinity each time, which is what Dafny's `/` does for a positive divisor.
  */
  function ShiftRight(a: int32, n: nat): (r: int32)
    requires n < 32
    ensures a >= 0 ==> 0 <= r <= a
    ensures a < 0 ==> a <= r < 0
    decreases n
  {
    if n == 0 then a else ShiftRight(a / 2, n - 1)
  }

  /** A positive multiple of `d` is at least `d`. */
  lemma MulAtLeast(d: int, k: int)
    requires d > 0 && k >= 1
    ensures d * k >= d
  {
  }

  /** Euclidean division has one quotient: the one whose remainder lies in `[0, d)`. */
  lemma DivUnique(a: int, d: int, q: int, r: int)
    requires d > 0 && 0 <= r < d && a == d * q + r
    ensures a / d == q
  {
    var q', r' := a / d, a % d;
    assert a == d * q' + r';
    assert d * q - d * q' == r' - r;
    if q' < q {
      assert d * (q - q') == d * q - d * q';
      MulAtLeast(d, q - q');
    } else if q < q' {
      MulAtLeast(d, q' - q);
    }
  }

  /** Halving and then dividing by `c` is dividing by `2c`, both rounding down. */
  lemma HalveThenDivide(a: int, c: int)
    requires c > 0
    ensures (a / 2) / c == a / (2 * c)
  {
    var q := a / 2;
    var q2, r2 := q / c, q % c;
    assert a == 2 * q + a % 2;
    assert q == c * q2 + r2;
    assert a == (2 * c) * q2 + (2 * r2 + a % 2);
    DivUnique(a, 2 * c, q2, 2 * r2 + a % 2);
  }

  /** The arithmetic shift `a >> n` is `a` divided by 2^n, rounded toward negative infinity. */
  lemma {:induction false} ShiftRightIsFloorDivision(a: int32, n: nat)
    requires n < 32
    ensures ShiftRight(a, n) == a / Pow2(n)
    decreases n
  {
    if n > 0 {
      ShiftRightIsFloorDivision(a / 2, n - 1);
      HalveThenDivide(a, Pow2(n - 1));
    }
  }

  /** The 32 bits of `a` in two's complement, read as an unsigned number. */
  function Unsigned(a: int32): (u: nat)
    ensures u < 0x1_0000_0000
    ensures (u - a) % 0x1_0000_0000 == 0
  {
    if a < 0 then a + 0x1_0000_0000 else a
  }

  /** The `int` whose two's-complement bits, read as an unsigned number, are `u`. */
  function Signed(u: nat): (r: int32)
    requires u < 0x1_0000_0000
    ensures Unsigned(r) == u
  {
    if u < 0x8000_0000 then u else u - 0x1_0000_0000
  }

  /** The exclusive or of two unsigned numbers, bit by bit from the lowest. */
  function XorBits(a: nat, b: nat): (r: nat)
    decreases a + b
  {
    if a == 0 && b == 0 then 0
    else (if a % 2 == b % 2 then 0 else 1) + 2 * XorBits(a / 2, b / 2)
  }

  /** Exclusive or creates no bit above the highest of its operands. */
  lemma {:induction false} XorBitsBound(a: nat, b: nat, n: nat)
    requires a < Pow2(n) && b < Pow2(n)
    ensures XorBits(a, b) < Pow2(n)
    decreases n
  {
    if n > 0 && (a != 0 || b != 0) {
      XorBitsBound(a / 2, b / 2, n - 1);
    }
  }

  /** Bit `k` of a number: 0 or 1. */
  function Bit(a: nat, k: nat): (b: nat)
    ensures b < 2
  {
    (a / Pow2(k)) % 2
  }

  /** `XorBits` is exclusive or bit by bit: each bit of the result is set exactly when the operands' bits differ. */
  lemma {:induction false} XorBitsBitwise(a: nat, b: nat, k: nat)
    ensures Bit(XorBits(a, b), k) == if Bit(a, k) == Bit(b, k) then 0 else 1
    decreases k
  {
    var x := XorBits(a, b);
    if k == 0 {
      if a == 0 && b == 0 {
      } else {
        assert x == (if a % 2 == b % 2 then 0 else 1) + 2 * XorBits(a / 2, b / 2);
      }
    } else {
      XorBitsBitwise(a / 2, b / 2, k - 1);
      HalveThenDivide(a, Pow2(k - 1));
      HalveThenDivide(b, Pow2(k - 1));
      HalveThenDivide(x, Pow2(k - 1));
      if a == 0 && b == 0 {
      } else {
        assert x / 2 == XorBits(a / 2, b / 2);
      }
    }
  }

  /** 2^32, the modulus of 32-bit wrap-around. */
  lemma Pow2Of32()
    ensures Pow2(32) == 0x1_0000_0000
  {
    assert Pow2(8) == 0x100;
    assert Pow2(16) == 0x1_0000;
    assert Pow2(24) == 0x100_0000;
  }

  /** `a ^ b` on `int`: exclusive or of the 32 two's-complement bits. */
  function Xor(a: int32, b: int32): (r: int32)
    ensures Unsigned(r) == XorBits(Unsigned(a), Unsigned(b))
  {
    Pow2Of32();
    XorBitsBound(Unsigned(a), Unsigned(b), 32);
    Signed(XorBits(Unsigned(a), Unsigned(b)))
  }

  /** A number xor-ed with itself is 0. */
  lemma {:induction false} XorBitsSelf(a: nat)
    ensures XorBits(a, a) == 0
    decreases a
  {
    if a != 0 {
      XorBitsSelf(a / 2);
    }
  }

  /** An `int` xor-ed with itself is 0. */
  lemma XorSelfIsZero(a: int32)
    ensures Xor(a, a) == 0
  {
    XorBitsSelf(Unsigned(a));
  }

  /**
    The remainder differs from the dividend by a multiple of the divisor. With
    the bound and the sign that `Rem` ensures, this fixes it: it is the
    remainder of division rounded toward zero.
  */
  lemma RemIsRemainder(a: int32, b: int32)
    requires b > 0
    ensures (a - Rem(a, b)) % b == 0
  {
    var q := AbsInt(a) / b;
    var k := if a < 0 then -q else q;
    assert a - Rem(a, b) == b * k;
    DivUnique(b * k, b, k, 0);
  }

  /**
    `a % b` on `int` for a positive divisor: the remainder of truncating division,
    which takes the sign of the dividend.
  */
  function Rem(a: int32, b: int32): (r: int32)
    requires b > 0
    ensures -b < r < b
    ensures a >= 0 ==> r >= 0
    ensures a <= 0 ==> r <= 0
  {
    var m := AbsInt(a) % b;
    if a >= 0 then m else -m
  }

  /** `Math.Abs(int)`, which throws an OverflowException on `int.MinValue`. */
  function Abs(x: int32): (r: int32)
    requires x != MinValue
    ensures r >= 0
    ensures r == x || r == -x
  {
    if x < 0 then -x else x
  }
}
