/** Java `int` arithmetic as the activity uses it: 32-bit two's-complement
    wrap-around, shifts whose count is taken modulo 32, truncating division,
    and the bitwise operators on non-negative operands. */
module JavaInt {

  const INT_MIN: int := -0x8000_0000
  const INT_MAX: int := 0x7FFF_FFFF
  const INT_MODULUS: int := 0x1_0000_0000

  predicate IsInt(x: int)
  {
    INT_MIN <= x <= INT_MAX
  }

  function Pow2(k: nat): (r: nat)
    ensures r >= 1
  {
    if k == 0 then 1 else 2 * Pow2(k - 1)
  }

  lemma Pow2Values()
    ensures Pow2(6) == 64 && Pow2(8) == 256 && Pow2(16) == 0x1_0000 && Pow2(24) == 0x100_0000
    ensures Pow2(30) == 0x4000_0000 && Pow2(31) == 0x8000_0000 && Pow2(32) == INT_MODULUS
  {
  }

  /** 2^(a + b) = 2^a * 2^b. */
  lemma {:induction false} Pow2Add(a: nat, b: nat)
    ensures Pow2(a + b) == Pow2(a) * Pow2(b)
  {
    if a > 0 {
      Pow2Add(a - 1, b);
    }
  }

  /** 2^k grows with k. */
  lemma {:induction false} Pow2Monotone(a: nat, b: nat)
    requires a <= b
    ensures Pow2(a) <= Pow2(b)
  {
    if a < b {
      Pow2Monotone(a, b - 1);
    }
  }

  /** The int with the same low 32 bits as x: the result of an int
      operation whose exact value is x. */
  function Wrap(x: int): (r: int)
    ensures IsInt(r) && (r - x) % INT_MODULUS == 0
  {
    (x - INT_MIN) % INT_MODULUS + INT_MIN
  }

  /** Wrapping leaves an int alone. */
  lemma WrapIdentity(x: int)
    requires IsInt(x)
    ensures Wrap(x) == x
  {
    assert 0 <= x - INT_MIN < INT_MODULUS;
  }

  /** A value one modulus above the int range wraps down by the modulus. */
  lemma WrapAbove(x: int)
    requires INT_MAX < x <= INT_MAX + INT_MODULUS
    ensures Wrap(x) == x - INT_MODULUS
  {
    DivModUnique(x - INT_MIN, INT_MODULUS, 1, x - INT_MIN - INT_MODULUS);
  }

  /** A value one modulus below the int range wraps up by the modulus. */
  lemma WrapBelow(x: int)
    requires INT_MIN - INT_MODULUS <= x < INT_MIN
    ensures Wrap(x) == x + INT_MODULUS
  {
    DivModUnique(x - INT_MIN, INT_MODULUS, -1, x - INT_MIN + INT_MODULUS);
  }

  /** x << s: the shift count is s & 31 and the product wraps. */
  function Shl(x: int, s: int): int
  {
    Wrap(x * Pow2(s % 32))
  }

  /** x >> s: an arithmetic shift by s & 31, which rounds toward negative
      infinity (Dafny's division by a positive divisor does). */
  function Shr(x: int, s: int): int
  {
    x / Pow2(s % 32)
  }

  /** 1 << s: the power of two of s & 31, which for a count of 31 is the
      sign bit alone, Integer.MIN_VALUE. */
  lemma ShlOne(s: int)
    ensures var k := s % 32;
      Shl(1, s) == (if k == 31 then INT_MIN else Pow2(k)) &&
      (k < 31 ==> Pow2(k) <= 0x4000_0000)
  {
    var k := s % 32;
    assert Shl(1, s) == Wrap(Pow2(k));
    if k < 31 {
      Pow2Fits(k);
    } else {
      Pow2Values();
      WrapAbove(Pow2(31));
    }
  }

  /** Powers of two up to 2^30 are ints. */
  lemma Pow2Fits(k: nat)
    requires k < 31
    ensures Wrap(Pow2(k)) == Pow2(k) && Pow2(k) <= 0x4000_0000
  {
    Pow2Monotone(k, 30);
    Pow2Values();
    WrapIdentity(Pow2(k));
  }

  /** x & 0xff keeps the low eight bits of x's two's-complement form. */
  function LowByte(x: int): (r: int)
    ensures 0 <= r < 256
  {
    x % 256
  }

  /** An unsigned 32-bit number is the sum of its four bytes. */
  lemma UnsignedBytes(u: nat)
    requires u < INT_MODULUS
    ensures u == u % 0x100 + (u / 0x100) % 0x100 * 0x100 + (u / 0x1_0000) % 0x100 * 0x1_0000 +
      (u / 0x100_0000) % 0x100 * 0x100_0000
  {
    var b0, q1 := u % 0x100, u / 0x100;
    var b1, q2 := q1 % 0x100, q1 / 0x100;
    var b2, b3 := q2 % 0x100, q2 / 0x100;
    assert u == b0 + b1 * 0x100 + b2 * 0x1_0000 + b3 * 0x100_0000;
    DivModUnique(u, 0x1_0000, q2, b0 + b1 * 0x100);
    DivModUnique(u, 0x100_0000, b3, b0 + b1 * 0x100 + b2 * 0x1_0000);
    DivModUnique(b3, 0x100, 0, b3);
  }

  /** Shifts by 8, 16 and 24 bits divide by 2^8, 2^16 and 2^24. */
  lemma ShrByWholeBytes(x: int)
    ensures Shr(x, 8) == x / 0x100 && Shr(x, 16) == x / 0x1_0000 && Shr(x, 24) == x / 0x100_0000
  {
    Pow2Values();
  }

  /** Java's `/` on int with a positive divisor truncates toward zero. */
  function Div(a: int, b: int): (r: int)
    requires b > 0
    ensures a >= 0 ==> 0 <= r * b <= a < r * b + b
    ensures a < 0 ==> r * b - b < a <= r * b <= 0
  {
    if a >= 0 then
      DivMod(a, b);
      a / b
    else
      DivMod(-a, b);
      -((-a) / b)
  }

  /** Dafny's quotient and remainder for a non-negative dividend. */
  lemma DivMod(a: nat, b: int)
    requires b > 0
    ensures a == (a / b) * b + a % b && 0 <= a % b < b && 0 <= a / b
  {
  }

  /** A quotient and remainder pair is the one division gives. */
  lemma DivModUnique(x: int, m: int, q: int, r: int)
    requires m > 0 && 0 <= r < m && x == q * m + r
    ensures x / m == q && x % m == r
  {
    var q', r' := x / m, x % m;
    assert x == q' * m + r';
    var d := q - q';
    assert d * m == r' - r;
    if d > 0 {
      MulGrows(d, m);
    } else if d < 0 {
      MulGrows(-d, m);
    }
  }

  /** A multiple at least once over is at least the factor. */
  lemma MulGrows(d: int, m: int)
    requires d >= 1 && m > 0
    ensures d * m >= m
  {
  }

  /** a & b on non-negative operands, bit by bit from the lowest. */
  function BitAnd(a: nat, b: nat): (r: nat)
    ensures r <= a && r <= b
    decreases a
  {
    if a == 0 || b == 0 then 0
    else 2 * BitAnd(a / 2, b / 2) + (if a % 2 == 1 && b % 2 == 1 then 1 else 0)
  }

  /** a ^ b on non-negative operands, bit by bit from the lowest. */
  function BitXor(a: nat, b: nat): nat
    decreases a + b
  {
    if a == 0 then b
    else if b == 0 then a
    else 2 * BitXor(a / 2, b / 2) + (if a % 2 != b % 2 then 1 else 0)
  }

  /** Splitting off the lowest bit: x mod 2^(k+1) is its low bit plus twice
      (x / 2) mod 2^k. */
  lemma ModPow2Split(x: nat, k: nat)
    ensures x % Pow2(k + 1) == x % 2 + 2 * ((x / 2) % Pow2(k))
  {
    var p := Pow2(k);
    var h, r := x / 2, (x / 2) % p;
    var q := h / p;
    DivMod(x, 2);
    DivMod(h, p);
    assert x == 2 * h + x % 2;
    assert h == q * p + r;
    assert x == q * (2 * p) + (x % 2 + 2 * r);
    DivModUnique(x, 2 * p, q, x % 2 + 2 * r);
  }

  /** The low k bits of x, lowest first. */
  function LowBits(x: nat, k: nat): nat
  {
    if k == 0 then 0 else x % 2 + 2 * LowBits(x / 2, k - 1)
  }

  /** The low k bits are x mod 2^k. */
  lemma {:induction false} LowBitsMod(x: nat, k: nat)
    ensures LowBits(x, k) == x % Pow2(k)
  {
    if k > 0 {
      LowBitsMod(x / 2, k - 1);
      ModPow2Split(x, k - 1);
    }
  }

  /** An n-bit number is its own low n bits. */
  lemma {:induction false} LowBitsSmall(x: nat, n: nat)
    requires x < Pow2(n)
    ensures LowBits(x, n) == x
  {
    if n > 0 {
      LowBitsSmall(x / 2, n - 1);
    }
  }

  /** And with k low one bits keeps the low k bits. */
  lemma {:induction false} AndLowOnes(x: nat, k: nat)
    ensures BitAnd(x, Pow2(k) - 1) == LowBits(x, k)
  {
    if k > 0 && x > 0 {
      var p := Pow2(k - 1);
      assert Pow2(k) - 1 == 2 * p - 1;
      assert (2 * p - 1) % 2 == 1 && (2 * p - 1) / 2 == p - 1;
      AndLowOnes(x / 2, k - 1);
    } else if k > 0 {
      assert LowBits(0, k) == 2 * LowBits(0, k - 1);
      LowBitsSmall(0, k - 1);
    }
  }

  /** x & 0xff and x mod 256 agree on non-negative x. */
  lemma LowByteIsAnd(x: nat)
    ensures LowByte(x) == BitAnd(x, 255)
  {
    Pow2Values();
    AndLowOnes(x, 8);
    LowBitsMod(x, 8);
  }

  /** n low one bits xor k low one bits leave bits k .. n - 1 set. */
  lemma {:induction false} XorLowOnes(n: nat, k: nat)
    requires k <= n
    ensures BitXor(Pow2(n) - 1, Pow2(k) - 1) == Pow2(n) - Pow2(k)
  {
    if k > 0 {
      var p, q := Pow2(n - 1), Pow2(k - 1);
      assert Pow2(n) - 1 == 2 * p - 1 && Pow2(k) - 1 == 2 * q - 1;
      assert (2 * p - 1) / 2 == p - 1 && (2 * q - 1) / 2 == q - 1;
      XorLowOnes(n - 1, k - 1);
    }
  }

  /** And with bits k .. n - 1 (the mask 2^n - 2^k) clears the low k bits of
      an n-bit x. */
  lemma {:induction false} AndClearLow(x: nat, n: nat, k: nat, mask: nat)
    requires k <= n && x < Pow2(n) && mask + Pow2(k) == Pow2(n)
    ensures BitAnd(x, mask) == x - LowBits(x, k)
  {
    if k == 0 {
      AndLowOnes(x, n);
      LowBitsSmall(x, n);
    } else if mask == 0 {
      assert Pow2(k) == Pow2(n);
      Pow2Monotone(k, n);
      if k < n {
        Pow2Monotone(k + 1, n);
      }
      LowBitsSmall(x, k);
    } else if x == 0 {
      LowBitsSmall(0, k);
    } else {
      var p, q := Pow2(n - 1), Pow2(k - 1);
      assert mask == 2 * (p - q);
      assert mask % 2 == 0 && mask / 2 == p - q;
      AndClearLow(x / 2, n - 1, k - 1, p - q);
    }
  }
}
