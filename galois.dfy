/** Arithmetic in GF(256) through the logarithm tables: the four static helpers
 *  of the decoder that the Reed-Solomon routines call. Field elements are bytes;
 *  addition in the field is XOR. */
module Galois {
  import opened GaloisTables
  import opened Bytes
  import opened Arith

  /** alpha^e for any exponent 0 <= e < 511. */
  function Exp(e: int): (r: Byte)
    requires 0 <= e < 511
    ensures r != 0
  {
    ExpToInt(e)
  }

  /** The logarithm of a byte (0 for the byte 0). */
  function Log(a: Byte): (r: int)
    ensures 0 <= r < 255
  {
    IntToExp(a)
  }

  /** Product of two field elements. */
  function Multiply(a: Byte, b: Byte): (r: Byte)
    ensures r == 0 <==> a == 0 || b == 0
  {
    if a == 0 || b == 0 then 0 else Exp(Log(a) + Log(b))
  }

  /** a * alpha^e, for an exponent 0 <= e < 256. */
  function MultiplyIntByExp(a: Byte, e: int): (r: Byte)
    requires 0 <= e < 256
    ensures r == 0 <==> a == 0
  {
    if a == 0 then 0 else Exp(Log(a) + e)
  }

  /** a * b / c; a zero divisor has logarithm 0 in the table and so acts as 1. */
  function MultiplyDivide(a: Byte, b: Byte, c: Byte): (r: Byte)
    ensures r == 0 <==> a == 0 || b == 0
  {
    if a == 0 || b == 0 then 0 else Exp((Log(a) + Log(b) - Log(c) + 255) % 255)
  }

  /** a / alpha^e, for an exponent 0 <= e <= 255. */
  function DivideIntByExp(a: Byte, e: int): (r: Byte)
    requires 0 <= e <= 255
    ensures r == 0 <==> a == 0
  {
    if a == 0 then 0 else Exp(Log(a) - e + 255)
  }

  /** The antilogarithm table is periodic with period 255. */
  lemma ExpShift(i: int)
    requires 0 <= i < 256
    ensures Exp(i + 255) == Exp(i)
  {
    ExpPeriod(i + 255);
  }

  /** Log and Exp are inverse on non-zero bytes. */
  lemma ExpOfLog(a: Byte)
    requires a != 0
    ensures Exp(Log(a)) == a
  {
    LogThenExp(a);
  }

  lemma LogOfExp(e: int)
    requires 0 <= e < 255
    ensures Log(Exp(e)) == e
  {
    ExpThenLog(e);
  }

  /** Equal exponents modulo 255 give equal powers. */
  lemma ExpCongruent(i: int, j: int)
    requires 0 <= i < 511 && 0 <= j < 511
    requires i == j || i == j + 255 || j == i + 255
    ensures Exp(i) == Exp(j)
  {
    if i == j + 255 {
      ExpShift(j);
    } else if j == i + 255 {
      ExpShift(i);
    }
  }

  /** One is the multiplicative identity. */
  lemma MultiplyByOne(a: Byte)
    ensures Multiply(a, 1) == a
  {
    if a != 0 {
      assert Log(1) == 0;
      ExpOfLog(a);
    }
  }

  /** MultiplyIntByExp multiplies by the field element alpha^e. */
  lemma MultiplyIntByExpIsProduct(a: Byte, e: int)
    requires 0 <= e < 255
    ensures MultiplyIntByExp(a, e) == Multiply(a, Exp(e))
  {
    if a != 0 {
      LogOfExp(e);
    }
  }

  /** Dividing by alpha^e undoes multiplying by alpha^e. */
  lemma DivideUndoesMultiply(a: Byte, e: int)
    requires 0 <= e < 255
    ensures DivideIntByExp(MultiplyIntByExp(a, e), e) == a
  {
    if a != 0 {
      var s := Log(a) + e;
      var b := Exp(s);
      if s < 255 {
        LogOfExp(s);
        ExpShift(Log(a));
      } else {
        ExpShift(s - 255);
        LogOfExp(s - 255);
      }
      ExpOfLog(a);
    }
  }

  /** MultiplyDivide(a, b, c) is the quotient (a * b) / c: multiplying it by a
   *  non-zero c gives back a * b. */
  lemma MultiplyDivideIsQuotient(a: Byte, b: Byte, c: Byte)
    requires c != 0
    ensures Multiply(MultiplyDivide(a, b, c), c) == Multiply(a, b)
  {
    if a != 0 && b != 0 {
      var p := Log(a) + Log(b);
      var s := p - Log(c) + 255;
      var q := s % 255;
      ReduceExponent(s);
      assert MultiplyDivide(a, b, c) == Exp(q);
      LogOfExp(q);
      assert Multiply(Exp(q), c) == Exp(q + Log(c));
      ExpCongruent(q + Log(c), p);
    }
  }

  /** An exponent below 3 * 255 reduced modulo 255. */
  lemma ReduceExponent(s: int)
    requires 0 <= s < 765
    ensures s % 255 == if s < 255 then s else if s < 510 then s - 255 else s - 510
  {
    if s < 255 {
      DivModOfSum(0, 255, s);
    } else if s < 510 {
      DivModOfSum(1, 255, s - 255);
    } else {
      DivModOfSum(2, 255, s - 510);
    }
  }

  /** Dividing by the byte 0 is dividing by one. */
  lemma MultiplyDivideByZero(a: Byte, b: Byte)
    ensures MultiplyDivide(a, b, 0) == Multiply(a, b)
  {
    if a != 0 && b != 0 {
      var p := Log(a) + Log(b);
      assert Log(0) == 0;
      var q := (p + 255) % 255;
      assert q == p || q == p - 255;
      ExpCongruent(q, p);
    }
  }
}
