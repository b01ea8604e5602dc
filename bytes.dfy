/** Bytes held as integers 0..255 and the bitwise exclusive or that the decoder
 *  applies to them (module colour flips, field addition). */
module Bytes {
  import opened Arith

  type Byte = x: int | 0 <= x < 256

  /** 2^n. */
  function Pow2(n: nat): (r: nat)
    ensures r >= 1
  {
    if n == 0 then 1 else 2 * Pow2(n - 1)
  }

  /** The powers of two that the word widths of the decoder use. */
  lemma Pow2Values()
    ensures Pow2(8) == 0x100 && Pow2(14) == 0x4000 && Pow2(15) == 0x8000 && Pow2(18) == 0x40000
  {
    assert Pow2(4) == 0x10;
    assert Pow2(8) == 0x100;
    assert Pow2(12) == 0x1000;
    assert Pow2(15) == 0x8000;
  }

  /** The powers of two of the field widths of the data bit stream. */
  lemma Pow2Widths()
    ensures Pow2(4) == 16 && Pow2(6) == 64 && Pow2(7) == 128 && Pow2(8) == 256
    ensures Pow2(10) == 1024 && Pow2(11) == 2048 && Pow2(16) == 0x10000 && Pow2(24) == 0x1000000
  {
    assert Pow2(4) == 16;
    assert Pow2(8) == 256;
    assert Pow2(11) == 2048;
    assert Pow2(16) == 0x10000;
    assert Pow2(24) == 0x1000000;
  }

  /** Exponents add when powers of two multiply. */
  lemma {:induction false} Pow2Add(a: nat, b: nat)
    ensures Pow2(a + b) == Pow2(a) * Pow2(b)
    decreases a
  {
    if a > 0 {
      Pow2Add(a - 1, b);
    }
  }

  /** Pow2Add for exponents given as any expression of their sum. */
  lemma Pow2Sum(a: nat, b: nat, c: nat)
    requires a + b == c
    ensures Pow2(c) == Pow2(a) * Pow2(b)
  {
    Pow2Add(a, b);
  }

  /** Powers of two grow with the exponent. */
  lemma {:induction false} Pow2Monotone(a: nat, b: nat)
    requires a <= b
    ensures Pow2(a) <= Pow2(b)
    decreases b
  {
    if a < b {
      Pow2Monotone(a, b - 1);
    }
  }

  /** v shifted right by k bits. */
  function Shr(v: nat, k: nat): nat
    decreases k, v
  {
    if k == 0 then v else Shr(v, k - 1) / 2
  }

  /** v shifted left by k bits, unbounded. */
  function Shl(v: nat, k: nat): nat
    decreases k, v
  {
    if k == 0 then v else 2 * Shl(v, k - 1)
  }

  /** Shifting left by k bits multiplies by 2^k. */
  lemma {:induction false} ShlIsProduct(v: nat, k: nat)
    ensures Shl(v, k) == v * Pow2(k)
  {
    if k > 0 {
      ShlIsProduct(v, k - 1);
      MulDouble(v, Pow2(k - 1), Pow2(k));
    }
  }

  /** Shifting right by k bits divides by 2^k. */
  lemma {:induction false} ShrIsQuotient(v: nat, k: nat)
    ensures Shr(v, k) == v / Pow2(k)
  {
    if k > 0 {
      ShrIsQuotient(v, k - 1);
      HalfQuotient(v, Pow2(k - 1));
    }
  }

  /** Exclusive or of the low n bits of a and b, built bit by bit from the
   *  least significant end. */
  function XorBits(a: nat, b: nat, n: nat): (r: nat)
    ensures r < Pow2(n)
    decreases n, a
  {
    if n == 0 then 0
    else 2 * XorBits(a / 2, b / 2, n - 1) + (if a % 2 == b % 2 then 0 else 1)
  }

  /** Bitwise exclusive or of two bytes. */
  function Xor(a: Byte, b: Byte): (r: Byte)
  {
    XorBits(a, b, 8)
  }

  lemma {:induction false} XorBitsComm(a: nat, b: nat, n: nat)
    ensures XorBits(a, b, n) == XorBits(b, a, n)
    decreases n
  {
    if n > 0 {
      XorBitsComm(a / 2, b / 2, n - 1);
    }
  }

  lemma {:induction false} XorBitsZero(a: nat, n: nat)
    requires a < Pow2(n)
    ensures XorBits(a, 0, n) == a
    decreases n
  {
    if n > 0 {
      XorBitsZero(a / 2, n - 1);
    }
  }

  lemma {:induction false} XorBitsSelf(a: nat, n: nat)
    ensures XorBits(a, a, n) == 0
    decreases n
  {
    if n > 0 {
      XorBitsSelf(a / 2, n - 1);
    }
  }

  lemma {:induction false} XorBitsAssoc(a: nat, b: nat, c: nat, n: nat)
    ensures XorBits(XorBits(a, b, n), c, n) == XorBits(a, XorBits(b, c, n), n)
    decreases n
  {
    if n > 0 {
      var ab := XorBits(a, b, n);
      var bc := XorBits(b, c, n);
      assert ab / 2 == XorBits(a / 2, b / 2, n - 1);
      assert bc / 2 == XorBits(b / 2, c / 2, n - 1);
      XorBitsAssoc(a / 2, b / 2, c / 2, n - 1);
    }
  }

  /** Zero is the identity of Xor. */
  lemma XorZero(a: Byte)
    ensures Xor(a, 0) == a && Xor(0, a) == a
  {
    XorBitsZero(a, 8);
    XorBitsComm(a, 0, 8);
  }

  /** Every byte is its own inverse under Xor. */
  lemma XorSelf(a: Byte)
    ensures Xor(a, a) == 0
  {
    XorBitsSelf(a, 8);
  }

  lemma XorComm(a: Byte, b: Byte)
    ensures Xor(a, b) == Xor(b, a)
  {
    XorBitsComm(a, b, 8);
  }

  lemma XorAssoc(a: Byte, b: Byte, c: Byte)
    ensures Xor(Xor(a, b), c) == Xor(a, Xor(b, c))
  {
    XorBitsAssoc(a, b, c, 8);
  }

  /** Xor with 1 flips bit 0 and keeps the other seven bits. */
  lemma XorOne(a: Byte)
    ensures Xor(a, 1) == if a % 2 == 0 then a + 1 else a - 1
  {
    XorBitsZero(a / 2, 7);
  }

  /** Inclusive or of the low n bits of a and b, built bit by bit from the
   *  least significant end. */
  function OrBits(a: nat, b: nat, n: nat): (r: nat)
    ensures r < Pow2(n)
    decreases n, a
  {
    if n == 0 then 0
    else 2 * OrBits(a / 2, b / 2, n - 1) + (if a % 2 == 1 || b % 2 == 1 then 1 else 0)
  }

  /** Or with zero keeps the low n bits. */
  lemma {:induction false} OrBitsZero(a: nat, n: nat)
    requires a < Pow2(n)
    ensures OrBits(a, 0, n) == a
    decreases n
  {
    if n > 0 {
      OrBitsZero(a / 2, n - 1);
    }
  }

  /** When a has no bit below k set and b none from k up, their or is their
   *  sum: the bits are disjoint. */
  lemma {:induction false} OrDisjoint(a: nat, b: nat, k: nat, n: nat)
    requires k <= n && a < Pow2(n) && a % Pow2(k) == 0 && b < Pow2(k)
    ensures OrBits(a, b, n) == a + b
    decreases n
  {
    if k == 0 {
      OrBitsZero(a, n);
    } else {
      var q := a / Pow2(k);
      assert a == Pow2(k - 1) * q * 2;
      assert a % 2 == 0 && a / 2 == Pow2(k - 1) * q;
      DivModOfSum(q, Pow2(k - 1), 0);
      OrDisjoint(a / 2, b / 2, k - 1, n - 1);
    }
  }

  /** The same for a 32-bit word: or-ing into the clear low k bits of w adds. */
  lemma OrIntoClearBits(w: nat, x: nat, k: nat, sum: nat)
    requires k <= 32 && w < Pow2(32) && w % Pow2(k) == 0 && x < Pow2(k) && sum == w + x
    ensures OrBits(w, x, 32) == sum
  {
    OrDisjoint(w, x, k, 32);
  }
}
