/** The data codewords as a stream of bits, the most significant bit of each
 *  codeword first (ISO/IEC 18004:2015 section 7.4), and the arithmetic of the
 *  32-bit window through which the decoder reads that stream. */
module BitStream {
  import opened Arith
  import opened Bytes

  type Bit = x: int | 0 <= x < 2

  /** The eight bits of a codeword, the most significant first. */
  function CodewordBitsOf(c: Byte): (b: seq<Bit>)
    ensures |b| == 8
  {
    seq(8, j requires 0 <= j < 8 => Shr(c, 7 - j) % 2)
  }

  /** The bit stream of a sequence of codewords: the bits of each codeword
   *  in turn. */
  function CodewordStream(s: seq<Byte>): (b: seq<Bit>)
    ensures |b| == 8 * |s|
  {
    if s == [] then [] else CodewordStream(s[..|s| - 1]) + CodewordBitsOf(s[|s| - 1])
  }

  /** Bit 8 * i + j of the stream is bit 7 - j of codeword i. */
  lemma {:induction false} StreamBit(s: seq<Byte>, i: nat, j: nat)
    requires i < |s| && j < 8
    ensures CodewordStream(s)[8 * i + j] == Shr(s[i], 7 - j) % 2
    decreases |s|
  {
    var front := s[..|s| - 1];
    if i < |s| - 1 {
      StreamBit(front, i, j);
      assert front[i] == s[i];
    } else {
      assert 8 * i + j - 8 * |front| == j;
    }
  }

  /** The n bits of the stream from position pos as a number, the first bit
   *  the most significant. */
  function Bits(b: seq<Bit>, pos: nat, n: nat): (v: nat)
    requires pos + n <= |b|
    decreases n, pos, b
  {
    if n == 0 then 0 else 2 * Bits(b, pos, n - 1) + b[pos + n - 1]
  }

  lemma {:induction false} BitsBound(b: seq<Bit>, pos: nat, n: nat)
    requires pos + n <= |b|
    ensures Bits(b, pos, n) < Pow2(n)
    decreases n
  {
    if n > 0 {
      BitsBound(b, pos, n - 1);
    }
  }

  /** Bits unfolded at its last bit, at position k. */
  lemma BitsLast(b: seq<Bit>, pos: nat, n: nat, k: nat)
    requires n > 0 && k == pos + n - 1 && pos + n <= |b|
    ensures Bits(b, pos, n) == 2 * Bits(b, pos, n - 1) + b[k]
  {
  }

  /** The len = m + n bits from pos are the first m bits followed by the
   *  next n. */
  lemma {:induction false} BitsSplit(b: seq<Bit>, pos: nat, m: nat, n: nat, len: nat)
    requires m + n == len && pos + len <= |b|
    ensures Bits(b, pos, len) == Bits(b, pos, m) * Pow2(n) + Bits(b, pos + m, n)
    decreases n
  {
    if n > 0 {
      BitsSplit(b, pos, m, n - 1, len - 1);
      BitsLast(b, pos, len, pos + len - 1);
      BitsLast(b, pos + m, n, pos + len - 1);
      MulDouble(Bits(b, pos, m), Pow2(n - 1), Pow2(n));
      DoubledSum(Bits(b, pos, len), Bits(b, pos, len - 1), b[pos + len - 1],
        Bits(b, pos, m) * Pow2(n), Bits(b, pos, m) * Pow2(n - 1), Bits(b, pos + m, n), Bits(b, pos + m, n - 1));
    }
  }

  /** The first j bits of codeword i are its top j bits. */
  lemma {:induction false} CodewordPrefix(s: seq<Byte>, i: nat, j: nat)
    requires i < |s| && j <= 8
    ensures Bits(CodewordStream(s), 8 * i, j) == Shr(s[i], 8 - j)
    decreases j
  {
    if j == 0 {
      ShrIsQuotient(s[i], 8);
      Pow2Values();
    } else {
      CodewordPrefix(s, i, j - 1);
      StreamBit(s, i, j - 1);
      BitsLast(CodewordStream(s), 8 * i, j, 8 * i + j - 1);
    }
  }

  /** The eight bits of a codeword, read from its first bit, are the codeword. */
  lemma CodewordBits(s: seq<Byte>, i: nat, at: nat)
    requires i < |s| && at == 8 * i
    ensures Bits(CodewordStream(s), at, 8) == s[i]
  {
    CodewordPrefix(s, i, 8);
  }

  /** Codeword i of a stream: its eight bits from 8 * i. */
  function StreamCodeword(b: seq<Bit>, i: nat): nat
    requires 8 * i + 8 <= |b|
  {
    Bits(b, 8 * i, 8)
  }

  /** A read of n bits at pos: their value, or -1 when fewer than n remain. */
  function Read(b: seq<Bit>, pos: nat, n: nat): (v: int)
    ensures -1 <= v < Pow2(n)
    ensures v == -1 <==> pos + n > |b|
  {
    if pos + n <= |b| then BitsBound(b, pos, n); Bits(b, pos, n) else -1
  }

  /** The position after that read: a read that fails consumes nothing. */
  function Next(b: seq<Bit>, pos: nat, n: nat): (p: nat)
  {
    if pos + n <= |b| then pos + n else pos
  }

  /** The window of the reader: the next len bits from pos, aligned to the top
   *  of a 32-bit word, with zeros below. */
  function Window(b: seq<Bit>, pos: nat, len: nat): (w: nat)
    requires pos + len <= |b| && len <= 32
  {
    Shl(Bits(b, pos, len), 32 - len)
  }

  /** The window as a product. */
  lemma WindowIsProduct(b: seq<Bit>, pos: nat, len: nat)
    requires pos + len <= |b| && len <= 32
    ensures Window(b, pos, len) == Bits(b, pos, len) * Pow2(32 - len)
  {
    ShlIsProduct(Bits(b, pos, len), 32 - len);
  }

  /** The window is a 32-bit word whose bits below the window are clear. */
  lemma WindowBounds(b: seq<Bit>, pos: nat, len: nat)
    requires pos + len <= |b| && len <= 32
    ensures Window(b, pos, len) < Pow2(32) && Window(b, pos, len) % Pow2(32 - len) == 0
  {
    WindowIsProduct(b, pos, len);
    BitsBound(b, pos, len);
    Pow2Sum(len, 32 - len, 32);
    ScaledBelow(Bits(b, pos, len), Pow2(len), Pow2(32 - len), Pow2(32), Window(b, pos, len));
  }

  /** The top n bits of the window are the n bits read. */
  lemma WindowTop(b: seq<Bit>, pos: nat, len: nat, n: nat)
    requires 1 <= n <= len <= 32 && pos + len <= |b|
    ensures Window(b, pos, len) / Pow2(32 - n) == Bits(b, pos, n)
  {
    WindowIsProduct(b, pos, len);
    BitsSplit(b, pos, n, len - n, len);
    BitsBound(b, pos + n, len - n);
    Pow2Sum(len - n, 32 - len, 32 - n);
    ScaledQuotient(Bits(b, pos, len), Window(b, pos, len), Bits(b, pos, n), Bits(b, pos + n, len - n),
      Pow2(len - n), Pow2(32 - len), Pow2(32 - n));
  }

  /** Shifting the window left by n bits, modulo 2^32, leaves the window of
   *  the bits after the first n. */
  lemma WindowShift(b: seq<Bit>, pos: nat, len: nat, n: nat)
    requires 1 <= n <= len <= 32 && pos + len <= |b|
    ensures Shl(Window(b, pos, len), n) % Pow2(32) == Window(b, pos + n, len - n)
  {
    ShlIsProduct(Window(b, pos, len), n);
    WindowIsProduct(b, pos, len);
    WindowIsProduct(b, pos + n, len - n);
    BitsSplit(b, pos, n, len - n, len);
    BitsBound(b, pos + n, len - n);
    ShiftedOut(Bits(b, pos, len), Bits(b, pos, n), Bits(b, pos + n, len - n), len - n, 32 - len, n);
  }

  /** The arithmetic of WindowShift: a value of top and rest bits, placed
   *  low bits up in a 32-bit word and shifted left past the top bits, keeps
   *  the rest bits placed low + n bits up. */
  lemma ShiftedOut(v: nat, top: nat, rest: nat, restLen: nat, low: nat, n: nat)
    requires restLen + low + n == 32 && v == top * Pow2(restLen) + rest && rest < Pow2(restLen)
    ensures v * Pow2(low) * Pow2(n) % Pow2(32) == rest * Pow2(32 - restLen)
  {
    Pow2Sum(low, n, 32 - restLen);
    Pow2Sum(restLen, 32 - restLen, 32);
    ScaledRemainder(v, v * Pow2(low), top, rest, Pow2(restLen), Pow2(low), Pow2(n), Pow2(32 - restLen), Pow2(32));
  }

  /** A read of n bits from the window: its top n bits, and the window
   *  shifted left past them. */
  lemma TakeFromWindow(b: seq<Bit>, pos: nat, len: nat, n: nat, w: nat)
    requires 1 <= n <= len <= 32 && pos + len <= |b| && w == Window(b, pos, len)
    ensures Shr(w, 32 - n) == Bits(b, pos, n)
    ensures Shl(w, n) % Pow2(32) == Window(b, pos + n, len - n)
  {
    ShrIsQuotient(w, 32 - n);
    WindowTop(b, pos, len, n);
    WindowShift(b, pos, len, n);
  }

  /** Loading a codeword c whose bits follow a window extends the window by
   *  those eight bits, which lie below the window's own. */
  lemma LoadIntoWindow(b: seq<Bit>, pos: nat, len: nat, c: Byte)
    requires len <= 24 && pos + len + 8 <= |b| && Bits(b, pos + len, 8) == c
    ensures Window(b, pos, len) + Shl(c, 24 - len) == Window(b, pos, len + 8)
    ensures Shl(c, 24 - len) < Pow2(32 - len)
  {
    ShlIsProduct(c, 24 - len);
    WindowIsProduct(b, pos, len);
    WindowIsProduct(b, pos, len + 8);
    BitsSplit(b, pos, len, 8, len + 8);
    assert Pow2(8) == 256;
    Pow2Sum(8, 24 - len, 32 - len);
    ScaledSum(Bits(b, pos, len + 8), Bits(b, pos, len), Pow2(8), c, Pow2(32 - len), Pow2(24 - len));
  }

  /** The same load done, as the decoder does it, by a bitwise or. */
  lemma OrIntoWindow(b: seq<Bit>, pos: nat, len: nat, c: Byte, shift: nat)
    requires len <= 24 && pos + len + 8 <= |b| && Bits(b, pos + len, 8) == c && shift == 24 - len
    ensures OrBits(Window(b, pos, len), Shl(c, shift), 32) == Window(b, pos, len + 8)
  {
    LoadIntoWindow(b, pos, len, c);
    WindowBounds(b, pos, len);
    OrIntoClearBits(Window(b, pos, len), Shl(c, shift), 32 - len, Window(b, pos, len + 8));
  }

  /** Four codewords whose bits begin the stream, each shifted to its byte
   *  of a 32-bit word and combined by bitwise or, are the window of the first
   *  32 bits. */
  lemma FirstWord(b: seq<Bit>, c0: Byte, c1: Byte, c2: Byte, c3: Byte)
    requires 32 <= |b|
    requires Bits(b, 0, 8) == c0 && Bits(b, 8, 8) == c1 && Bits(b, 16, 8) == c2 && Bits(b, 24, 8) == c3
    ensures OrBits(OrBits(OrBits(Shl(c0, 24), Shl(c1, 16), 32), Shl(c2, 8), 32), c3, 32) == Window(b, 0, 32)
  {
    LoadIntoWindow(b, 0, 0, c0);
    assert Shl(c0, 24) == Window(b, 0, 8);
    OrIntoWindow(b, 0, 8, c1, 16);
    OrIntoWindow(b, 0, 16, c2, 8);
    OrIntoWindow(b, 0, 24, c3, 0);
    assert Shl(c3, 0) == c3;
  }

  /** The first four codewords as a 32-bit word are the window of the first
   *  32 bits of their stream. */
  lemma FirstCodewords(s: seq<Byte>)
    requires |s| >= 4
    ensures OrBits(OrBits(OrBits(Shl(s[0], 24), Shl(s[1], 16), 32), Shl(s[2], 8), 32), s[3], 32)
      == Window(CodewordStream(s), 0, 32)
  {
    CodewordBits(s, 0, 0);
    CodewordBits(s, 1, 8);
    CodewordBits(s, 2, 16);
    CodewordBits(s, 3, 24);
    FirstWord(CodewordStream(s), s[0], s[1], s[2], s[3]);
  }
}
