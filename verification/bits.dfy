/** Powers of two and bit operations on unbounded naturals.

    The host programs use bit manipulation in three places: rounding a
    work-group size down to a power of two, folding status codes with `|`,
    and testing capability bits with `&`.  Everything here works on `nat`
    so that the fixed widths of the source (32-bit `cl_int`, 64-bit
    `cl_bitfield`) are stated explicitly by the callers. */
module Bits {

  /** The ranges of 32-bit (`cl_uint`) and 64-bit (`cl_ulong`, `size_t`)
      unsigned integers. */
  const Word32: nat := 0x1_0000_0000
  const Word64: nat := 0x1_0000_0000_0000_0000

  /** 2 to the power k. */
  function Pow2(k: nat): (r: nat)
    ensures r >= 1
  {
    if k == 0 then 1 else 2 * Pow2(k - 1)
  }

  /** Exponents add when powers multiply. */
  lemma {:induction false} Pow2Add(a: nat, b: nat)
    ensures Pow2(a + b) == Pow2(a) * Pow2(b)
  {
    if a > 0 {
      Pow2Add(a - 1, b);
    }
  }

  /** The two powers that bound a 32-bit word. */
  lemma Pow2Word()
    ensures Pow2(31) == 0x8000_0000
    ensures Pow2(32) == 0x1_0000_0000
  {
    assert Pow2(3) == 8;
    assert Pow2(4) == 16;
    Pow2Add(4, 4);
    Pow2Add(8, 8);
    Pow2Add(16, 16);
    Pow2Add(3, 4);
    Pow2Add(7, 8);
    Pow2Add(15, 16);
  }

  /** n is one of 1, 2, 4, 8, ... */
  predicate IsPow2(n: nat)
  {
    n == 1 || (n > 1 && n % 2 == 0 && IsPow2(n / 2))
  }

  /** Every power 2^k passes the power-of-two test. */
  lemma {:induction false} IsPow2OfPow2(k: nat)
    ensures IsPow2(Pow2(k))
  {
    if k > 0 {
      IsPow2OfPow2(k - 1);
    }
  }

  /** Bit k of x, counting from the least significant bit. */
  predicate TestBit(x: nat, k: nat)
  {
    (x / Pow2(k)) % 2 == 1
  }

  /** Bitwise OR of two naturals, one bit at a time. */
  function BitOr(a: nat, b: nat): nat
    decreases a + b
  {
    if a == 0 && b == 0 then 0
    else 2 * BitOr(a / 2, b / 2) + (if a % 2 == 1 || b % 2 == 1 then 1 else 0)
  }

  /** OR is zero exactly when both operands are zero. */
  lemma {:induction false} BitOrZero(a: nat, b: nat)
    ensures BitOr(a, b) == 0 <==> a == 0 && b == 0
    decreases a + b
  {
    if a != 0 || b != 0 {
      if a % 2 == 0 && b % 2 == 0 {
        BitOrZero(a / 2, b / 2);
      }
    }
  }

  /** Within a window of k+1 bits, OR stays in the window and sets the top
      bit exactly when one of the operands has it set. */
  lemma {:induction false} BitOrTopBit(k: nat, a: nat, b: nat)
    requires a < Pow2(k + 1) && b < Pow2(k + 1)
    ensures BitOr(a, b) < Pow2(k + 1)
    ensures BitOr(a, b) >= Pow2(k) <==> a >= Pow2(k) || b >= Pow2(k)
  {
    if a == 0 && b == 0 {
    } else if k == 0 {
      assert a / 2 == 0 && b / 2 == 0;
    } else {
      BitOrTopBit(k - 1, a / 2, b / 2);
      assert Pow2(k + 1) == 2 * Pow2(k);
      assert Pow2(k) == 2 * Pow2(k - 1);
    }
  }

  /** Two powers of two, one no larger than the other, divide each other. */
  lemma {:induction false} Pow2Divides(small: nat, big: nat)
    requires IsPow2(small) && IsPow2(big) && small <= big
    ensures big % small == 0
    ensures IsPow2(big / small)
    decreases big
  {
    if small == big {
    } else if small == 1 {
    } else {
      assert big > 1;
      Pow2Divides(small / 2, big / 2);
      assert big / small == (big / 2) / (small / 2) by {
        DivHalves(big, small);
      }
    }
  }

  /** Halving an even dividend and an even divisor keeps the quotient. */
  lemma DivHalves(big: nat, small: nat)
    requires small >= 2 && small % 2 == 0 && big % 2 == 0
    requires (big / 2) % (small / 2) == 0
    ensures big % small == 0
    ensures big / small == (big / 2) / (small / 2)
  {
    var q := (big / 2) / (small / 2);
    assert big / 2 == q * (small / 2);
    assert big == q * small;
    ExactDivision(big, small, q);
  }

  /** A multiple of d divides by d without remainder, giving the factor. */
  lemma ExactDivision(x: nat, d: nat, q: nat)
    requires d > 0 && x == q * d
    ensures x % d == 0 && x / d == q
  {
    var k := x / d;
    var r := x % d;
    assert d * k + r == x;
    if k < q {
      assert d * q == d * k + (q - k) * d;
      MulAtLeast(q - k, d);
    }
  }

  /** Multiplying by a positive integer does not shrink a natural. */
  lemma MulAtLeast(m: int, d: nat)
    requires m >= 1
    ensures m * d >= d
  {
    if m > 1 {
      MulAtLeast(m - 1, d);
      assert m * d == (m - 1) * d + d;
    }
  }

  /** Number of halvings that take n down to 1. */
  function Log2(n: nat): (k: nat)
    requires n >= 1
    ensures Pow2(k) <= n < 2 * Pow2(k)
  {
    if n == 1 then 0 else 1 + Log2(n / 2)
  }

  /** The quotient is the unique q with x = q*d + r and 0 <= r < d. */
  lemma DivUnique(x: nat, d: nat, q: nat, r: nat)
    requires 0 <= r < d && x == q * d + r
    ensures x / d == q && x % d == r
  {
    var k := x / d;
    var m := x % d;
    assert d * k + m == x;
    if k < q {
      assert d * q == d * k + (q - k) * d;
      MulAtLeast(q - k, d);
    } else if k > q {
      assert d * k == d * q + (k - q) * d;
      MulAtLeast(k - q, d);
    }
  }

  /** Halving and then dividing by 2^k divides by 2^(k+1). */
  lemma HalfThenDivide(a: nat, k: nat)
    ensures a / 2 / Pow2(k) == a / Pow2(k + 1)
  {
    var p := Pow2(k);
    assert Pow2(k + 1) == 2 * p;
    var q, r := a / (2 * p), a % (2 * p);
    assert a == q * (2 * p) + r;
    var h, b := r / 2, r % 2;
    assert r == h * 2 + b;
    assert q * (2 * p) == (q * p) * 2;
    assert a == (q * p + h) * 2 + b;
    DivUnique(a, 2, q * p + h, b);
    assert h < p;
    DivUnique(a / 2, p, q, h);
  }

  /** Multiplication by a natural is monotonic. */
  lemma MulLe(a: nat, b: nat, c: nat)
    requires a <= b
    ensures a * c <= b * c
  {
    assert b * c == a * c + (b - a) * c;
  }

  /** Divisibility is transitive. */
  lemma DividesTransitive(x: nat, a: nat, d: nat)
    requires d > 0 && a > 0 && a % d == 0 && x % a == 0
    ensures x % d == 0
  {
    var k, m := x / a, a / d;
    assert x == k * a;
    assert a == m * d;
    assert x == (k * m) * d;
    ExactDivision(x, d, k * m);
  }

  /** Dividing by a and then by b divides by a * b. */
  lemma DivDiv(x: nat, a: nat, b: nat)
    requires a > 0 && b > 0
    ensures x / a / b == x / (a * b)
  {
    var q, r := x / (a * b), x % (a * b);
    assert x == q * (a * b) + r;
    var r1, r0 := r / a, r % a;
    assert r == r1 * a + r0;
    assert r1 < b by {
      LtMulCancel(r1, b, a, r0);
    }
    Regroup(x, q, a, b, r, r1, r0);
    DivUnique(x, a, q * b + r1, r0);
    DivUnique(q * b + r1, b, q, r1);
  }

  /** Splitting the remainder of a division by a*b into a quotient and a
      remainder by a regroups the dividend. */
  lemma Regroup(x: nat, q: nat, a: nat, b: nat, r: nat, r1: nat, r0: nat)
    requires x == q * (a * b) + r && r == r1 * a + r0
    ensures x == (q * b + r1) * a + r0
  {
    assert q * (a * b) == (q * b) * a;
    assert (q * b + r1) * a == (q * b) * a + r1 * a;
  }

  /** If m*a plus something non-negative stays below n*a, then m < n. */
  lemma LtMulCancel(m: nat, n: nat, a: nat, extra: nat)
    requires m * a + extra < a * n
    ensures m < n
  {
    if m >= n {
      MulLe(n, m, a);
    }
  }

  /** A divisor that leaves no remainder multiplies back to the dividend. */
  lemma ExactQuotient(x: nat, d: nat)
    requires d > 0 && x % d == 0
    ensures (x / d) * d == x
  {
  }
}
