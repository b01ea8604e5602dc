// The placement of the codeword bits in the symbol (ISO/IEC 18004:2015
// section 7.7.3), read back the way the decoder's UnloadDataFromMatrix does:
// two-module wide columns from the bottom right corner, alternately upwards
// and downwards, the right module of each row before the left one, skipping
// every module that is not data and stepping over the vertical timing
// pattern in column 6.
module Placement {
  import opened Arith
  import opened Wrappers
  import opened Bytes
  import opened BitStream
  import opened Matrix

  /** The decoder's position: row, column and the state of the walk: 0 and 1
   *  going up (at the right, at the left module), 2 and 3 going down. */
  datatype Cursor = Cursor(row: int, col: int, state: int)

  /** The first module read: the bottom right corner, going up. */
  function Start(dim: int): Cursor
  {
    Cursor(dim - 1, dim - 1, 0)
  }

  /** The right column of the two-module column the cursor is in. */
  function StripRight(cur: Cursor): int
  {
    if cur.state % 2 == 1 then cur.col + 1 else cur.col
  }

  /** How far the walk has come along its two-module column. */
  function Progress(dim: int, cur: Cursor): int
  {
    if cur.state < 2 then 2 * (dim - 1 - cur.row) + cur.state else 2 * cur.row + cur.state - 2
  }

  /** A cursor of a symbol of dimension dim: a row of the symbol, a state,
   *  and a column no further right than the last. */
  predicate InSymbol(dim: int, cur: Cursor)
  {
    0 <= cur.row < dim && 0 <= cur.state < 4 && StripRight(cur) < dim
  }

  /** The move after each module: to the left module of the same row, or to
   *  the right module of the next row; at the top or bottom edge, to the
   *  next two-module column on the left, reversing direction. */
  function Advance(dim: int, cur: Cursor): (next: Cursor)
    requires InSymbol(dim, cur)
    ensures InSymbol(dim, next)
    ensures StripRight(next) < StripRight(cur) ||
      (StripRight(next) == StripRight(cur) && Progress(dim, cur) < Progress(dim, next) < 2 * dim)
  {
    match cur.state
    case 0 => Cursor(cur.row, cur.col - 1, 1)
    case 1 =>
      if cur.row - 1 >= 0 then Cursor(cur.row - 1, cur.col + 1, 0) else Cursor(0, cur.col + 1 - 2, 2)
    case 2 => Cursor(cur.row, cur.col - 1, 3)
    case 3 =>
      if cur.row + 1 < dim then Cursor(cur.row + 1, cur.col + 1, 2) else Cursor(dim - 1, cur.col + 1 - 2, 0)
  }

  /** The step over the vertical timing pattern: a module that is not data
   *  in column 6 moves the cursor to column 5 before it advances. */
  function SkipTiming(cur: Cursor): (next: Cursor)
    ensures next.row == cur.row && next.state == cur.state
  {
    if cur.col == 6 then cur.(col := 5) else cur
  }

  /** The colour of a module as a bit: 1 for dark. */
  function ModuleBit(v: Byte): Bit
  {
    if IsBlack(v) then 1 else 0
  }

  /** g holds at least dim rows of at least dim modules. */
  predicate Covers(g: seq<seq<Byte>>, dim: int)
  {
    1 <= dim <= |g| && forall r :: 0 <= r < dim ==> dim <= |g[r]|
  }

  /** The need bits of the data modules the decoder reads from cur on, in
   *  order; None when the walk leaves the symbol on the left before it has
   *  them (the decoder's index out of range). */
  ghost function Walk(g: seq<seq<Byte>>, dim: int, cur: Cursor, need: nat): (r: Option<seq<Bit>>)
    requires Covers(g, dim) && InSymbol(dim, cur) && need >= 1
    ensures r.Some? ==> |r.value| == need
    decreases StripRight(cur) + 2, 2 * dim - Progress(dim, cur)
  {
    if cur.col < 0 then None
    else
      var v := g[cur.row][cur.col];
      var b := StepBits(v);
      if need == |b| then Some(b)
      else Prepend(b, Walk(g, dim, StepNext(dim, cur, v), need - |b|))
  }

  /** The bits the decoder takes from a module v: its colour when it is
   *  data, nothing otherwise. */
  function StepBits(v: Byte): (b: seq<Bit>)
    ensures |b| <= 1
  {
    if IsNonData(v) then [] else [ModuleBit(v)]
  }

  /** Where the decoder goes after module v at cur: past the vertical timing
   *  pattern if need be, then one step on. */
  function StepNext(dim: int, cur: Cursor, v: Byte): (next: Cursor)
    requires InSymbol(dim, cur)
    ensures InSymbol(dim, next)
    ensures StripRight(next) < StripRight(cur) ||
      (StripRight(next) == StripRight(cur) && Progress(dim, cur) < Progress(dim, next) < 2 * dim)
  {
    if IsNonData(v) then Advance(dim, SkipTiming(cur)) else Advance(dim, cur)
  }

  /** The bits b followed by those of r, if any. */
  function Prepend(b: seq<Bit>, r: Option<seq<Bit>>): (p: Option<seq<Bit>>)
    ensures p.Some? <==> r.Some?
    ensures p.Some? ==> p.value == b + r.value
  {
    match r
    case None => None
    case Some(rest) => Some(b + rest)
  }

  // ----- Packing bits into codewords -----

  /** The bits read so far, followed by zeros up to len bits. */
  function Padded(bits: seq<Bit>, len: nat): (p: seq<Bit>)
    requires |bits| <= len
    ensures |p| == len && p[..|bits|] == bits
    ensures forall i :: |bits| <= i < len ==> p[i] == 0
  {
    bits + seq(len - |bits|, _ => 0)
  }

  /** Bits only depends on the bits it reads. */
  lemma {:induction false} BitsOfSameBits(b: seq<Bit>, c: seq<Bit>, pos: nat, n: nat)
    requires pos + n <= |b| && pos + n <= |c|
    requires forall i :: pos <= i < pos + n ==> b[i] == c[i]
    ensures Bits(b, pos, n) == Bits(c, pos, n)
    decreases n
  {
    if n > 0 {
      BitsOfSameBits(b, c, pos, n - 1);
    }
  }

  /** Bits is one to one: the same number means the same bits. */
  lemma {:induction false} BitsInjective(b: seq<Bit>, c: seq<Bit>, pos: nat, n: nat)
    requires pos + n <= |b| && pos + n <= |c| && Bits(b, pos, n) == Bits(c, pos, n)
    ensures forall i :: pos <= i < pos + n ==> b[i] == c[i]
    decreases n
  {
    if n > 0 {
      BitsInjective(b, c, pos, n - 1);
    }
  }

  /** Zero bits read as zero. */
  lemma {:induction false} BitsOfZeros(b: seq<Bit>, pos: nat, n: nat)
    requires pos + n <= |b| && forall i :: pos <= i < pos + n ==> b[i] == 0
    ensures Bits(b, pos, n) == 0
    decreases n
  {
    if n > 0 {
      BitsOfZeros(b, pos, n - 1);
    }
  }

  /** Codewords each of which is the number of eight consecutive bits of b
   *  have b as their bit stream. */
  lemma StreamOfPacked(s: seq<Byte>, b: seq<Bit>)
    requires |b| == 8 * |s| && forall i :: 0 <= i < |s| ==> s[i] == Bits(b, 8 * i, 8)
    ensures CodewordStream(s) == b
  {
    var t := CodewordStream(s);
    forall k | 0 <= k < |b|
      ensures t[k] == b[k]
    {
      var i := k / 8;
      CodewordBits(s, i, 8 * i);
      BitsInjective(t, b, 8 * i, 8);
    }
  }

  /** Setting bit p = 8 * k + j, the first of the padding, to x: codeword k
   *  gains x at bit 7 - j, by an or into bits that are clear, and every
   *  other codeword is unchanged. */
  lemma PackBit(bits: seq<Bit>, x: Bit, len: nat, k: nat, j: nat, i: nat)
    requires |bits| == 8 * k + j && j < 8 && 8 * i + 8 <= len && |bits| < len
    ensures Bits(Padded(bits + [x], len), 8 * i, 8) ==
      if i == k && x == 1 then OrBits(Bits(Padded(bits, len), 8 * i, 8), Pow2(7 - j), 8)
      else Bits(Padded(bits, len), 8 * i, 8)
  {
    var p, q := Padded(bits, len), Padded(bits + [x], len);
    assert forall t :: 0 <= t < len && t != |bits| ==> p[t] == q[t] by {
      forall t | 0 <= t < len && t != |bits|
        ensures p[t] == q[t]
      {
        if t < |bits| {
          assert p[t] == p[..|bits|][t] && q[t] == q[..|bits| + 1][t];
        }
      }
    }
    if i != k {
      BitsOfSameBits(p, q, 8 * i, 8);
    } else {
      assert q[8 * k + j] == x by {
        assert q[..|bits| + 1][|bits|] == x;
      }
      PackInto(p, q, x, k, j);
    }
  }

  /** (2 * h + x) * p spread out. */
  lemma Distribute(h: int, x: int, p: int, p2: int)
    requires p2 == 2 * p
    ensures (2 * h + x) * p == h * p2 + x * p
  {
  }

  /** Eight bits whose last 8 - j are zero: their first j, shifted. */
  lemma ZeroTail(p: seq<Bit>, k: nat, j: nat)
    requires j < 8 && 8 * k + 8 <= |p|
    requires forall t :: 8 * k + j <= t < |p| ==> p[t] == 0
    ensures Bits(p, 8 * k, 8) == Bits(p, 8 * k, j) * Pow2(8 - j)
  {
    BitsSplit(p, 8 * k, j, 8 - j, 8);
    BitsOfZeros(p, 8 * k + j, 8 - j);
  }

  /** The same bits with bit j set to x, the ones after it still zero. */
  lemma SetTail(p: seq<Bit>, q: seq<Bit>, x: Bit, k: nat, j: nat)
    requires j < 8 && 8 * k + 8 <= |p| == |q| && q[8 * k + j] == x
    requires forall t :: 0 <= t < |p| && t != 8 * k + j ==> p[t] == q[t]
    requires forall t :: 8 * k + j <= t < |p| ==> p[t] == 0
    ensures Bits(q, 8 * k, 8) == Bits(p, 8 * k, j) * Pow2(8 - j) + x * Pow2(7 - j)
  {
    var high, p7, p8 := Bits(p, 8 * k, j), Pow2(7 - j), Pow2(8 - j);
    Pow2Sum(1, 7 - j, 8 - j);
    assert Bits(q, 8 * k, 8) == (2 * high + x) * p7 by {
      BitsSplit(q, 8 * k, j + 1, 7 - j, 8);
      BitsOfZeros(q, 8 * k + j + 1, 7 - j);
      BitsLast(q, 8 * k, j + 1, 8 * k + j);
      BitsOfSameBits(p, q, 8 * k, j);
    }
    Distribute(high, x, p7, p8);
  }

  /** Or-ing bit 7 - j into a byte whose bits from 7 - j down are clear
   *  adds it. */
  lemma OrIntoClearTail(high: nat, j: nat)
    requires j < 8 && high * Pow2(8 - j) < Pow2(8)
    ensures OrBits(high * Pow2(8 - j), Pow2(7 - j), 8) == high * Pow2(8 - j) + Pow2(7 - j)
  {
    DivModOfSum(high, Pow2(8 - j), 0);
    Pow2Sum(1, 7 - j, 8 - j);
    OrDisjoint(high * Pow2(8 - j), Pow2(7 - j), 8 - j, 8);
  }

  /** The byte with bit 7 - j set, as an or. */
  lemma PackOne(p: seq<Bit>, k: nat, j: nat, v: int)
    requires j < 8 && 8 * k + 8 <= |p|
    requires Bits(p, 8 * k, 8) == Bits(p, 8 * k, j) * Pow2(8 - j)
    requires v == Bits(p, 8 * k, j) * Pow2(8 - j) + 1 * Pow2(7 - j)
    ensures v == OrBits(Bits(p, 8 * k, 8), Pow2(7 - j), 8)
  {
    BitsBound(p, 8 * k, 8);
    OrIntoClearTail(Bits(p, 8 * k, j), j);
  }

  /** Codeword k of the padded bits before and after bit j is set to x. */
  lemma PackInto(p: seq<Bit>, q: seq<Bit>, x: Bit, k: nat, j: nat)
    requires j < 8 && 8 * k + 8 <= |p| == |q| && q[8 * k + j] == x
    requires forall t :: 0 <= t < |p| && t != 8 * k + j ==> p[t] == q[t]
    requires forall t :: 8 * k + j <= t < |p| ==> p[t] == 0
    ensures Bits(q, 8 * k, 8) == if x == 1 then OrBits(Bits(p, 8 * k, 8), Pow2(7 - j), 8) else Bits(p, 8 * k, 8)
  {
    ZeroTail(p, k, j);
    SetTail(p, q, x, k, j);
    if x == 1 {
      PackOne(p, k, j, Bits(q, 8 * k, 8));
    }
  }

  // ----- The decoder's loop -----

  /** Walking on from a data module: its bit, then the rest. */
  lemma PrependTwice(bits: seq<Bit>, b: seq<Bit>, r: Option<seq<Bit>>)
    ensures Prepend(bits, Prepend(b, r)) == Prepend(bits + b, r)
  {
    if r.Some? {
      assert bits + (b + r.value) == (bits + b) + r.value;
    }
  }

  /** A walk that has left the symbol reads nothing more. */
  lemma WalkOff(g: seq<seq<Byte>>, dim: int, cur: Cursor, need: nat)
    requires Covers(g, dim) && InSymbol(dim, cur) && need >= 1 && cur.col < 0
    ensures Walk(g, dim, cur, need) == None
  {
  }

  /** Nothing read yet. */
  lemma PrependNothing(r: Option<seq<Bit>>)
    ensures Prepend([], r) == r
  {
    if r.Some? {
      assert [] + r.value == r.value;
    }
  }

  /** All the bits: nothing is padded. */
  lemma PaddedFull(bits: seq<Bit>)
    ensures Padded(bits, |bits|) == bits
  {
    assert Padded(bits, |bits|) == Padded(bits, |bits|)[..|bits|];
  }

  /** The walk ending at the last data module needed: the whole walk is
   *  read, and the codewords s hold it. */
  lemma Finish(g: seq<seq<Byte>>, dim: int, cur: Cursor, v: Byte, whole: Option<seq<Bit>>, bits: seq<Bit>, s: seq<Byte>)
    requires Covers(g, dim) && InSymbol(dim, cur) && 0 <= cur.col && v == g[cur.row][cur.col] && !IsNonData(v)
    requires whole == Prepend(bits, Walk(g, dim, cur, 1))
    requires Packed(s, bits + [ModuleBit(v)], |bits| + 1)
    ensures whole == Some(bits + [ModuleBit(v)]) && CodewordStream(s) == whole.value
  {
    var all := bits + [ModuleBit(v)];
    PaddedFull(all);
    StreamOfPacked(s, all);
  }

  /** One step of the walk that is not its last: the bits of the module v
   *  at cur, then the walk from the next module on for need' more bits. */
  lemma WalkStep(g: seq<seq<Byte>>, dim: int, cur: Cursor, v: Byte, next: Cursor, need: nat, need': nat)
    requires Covers(g, dim) && InSymbol(dim, cur) && 0 <= cur.col && v == g[cur.row][cur.col]
    requires next == StepNext(dim, cur, v) && need' >= 1 && need' == need - |StepBits(v)|
    ensures Walk(g, dim, cur, need) == Prepend(StepBits(v), Walk(g, dim, next, need'))
  {
    if IsNonData(v) {
      PrependNothing(Walk(g, dim, next, need'));
    }
  }

  /** The walk so far, bits, and one more step of it from cur to next. */
  lemma Carry(g: seq<seq<Byte>>, dim: int, whole: Option<seq<Bit>>, bits: seq<Bit>,
              cur: Cursor, v: Byte, next: Cursor, need: nat, need': nat)
    requires Covers(g, dim) && InSymbol(dim, cur) && 0 <= cur.col && v == g[cur.row][cur.col]
    requires next == StepNext(dim, cur, v) && need' >= 1 && need' == need - |StepBits(v)|
    requires whole == Prepend(bits, Walk(g, dim, cur, need))
    ensures whole == Prepend(bits + StepBits(v), Walk(g, dim, next, need'))
  {
    WalkStep(g, dim, cur, v, next, need, need');
    PrependTwice(bits, StepBits(v), Walk(g, dim, next, need'));
  }

  /** The codewords s hold the bits read so far, then zeros, up to len bits. */
  predicate Packed(s: seq<Byte>, bits: seq<Bit>, len: nat)
  {
    |bits| <= len == 8 * |s| && forall i :: 0 <= i < |s| ==> s[i] == Bits(Padded(bits, len), 8 * i, 8)
  }

  /** Codewords of zeros hold no bits. */
  lemma PackedZeros(s: seq<Byte>)
    requires forall i :: 0 <= i < |s| ==> s[i] == 0
    ensures Packed(s, [], 8 * |s|)
  {
    forall i | 0 <= i < |s|
      ensures s[i] == Bits(Padded([], 8 * |s|), 8 * i, 8)
    {
      BitsOfZeros(Padded([], 8 * |s|), 8 * i, 8);
    }
  }

  /** The decoder's store of data bit ptr: codeword ptr / 8 gains bit
   *  7 - ptr % 8 when the module is dark. */
  method StoreBit(out: array<Byte>, ptr: int, v: Byte, ghost bits: seq<Bit>, ghost len: int)
    requires 0 <= ptr == |bits| < len && Packed(out[..], bits, len)
    modifies out
    ensures Packed(out[..], bits + [ModuleBit(v)], len)
  {
    ghost var x := ModuleBit(v);
    ghost var k, j := ptr / 8, ptr % 8;
    if IsBlack(v) {
      out[ptr / 8] := OrBits(out[ptr / 8], Pow2(7 - ptr % 8), 8);
    }
    forall i | 0 <= i < out.Length
      ensures out[i] == Bits(Padded(bits + [x], len), 8 * i, 8)
    {
      PackBit(bits, x, len, k, j, i);
    }
  }

  /** The state of the decoder's walk: at cur, having read the ptr bits
   *  bits of the whole walk, packed into the codewords out, with the rest of
   *  the walk still to come. */
  ghost predicate Reading(g: seq<seq<Byte>>, dim: int, whole: Option<seq<Bit>>, out: seq<Byte>,
                          cur: Cursor, ptr: int, ptrEnd: int, bits: seq<Bit>)
  {
    Covers(g, dim) && InSymbol(dim, cur) && 0 <= ptr == |bits| < ptrEnd &&
    whole == Prepend(bits, Walk(g, dim, cur, ptrEnd - ptr)) && Packed(out, bits, ptrEnd)
  }

  /** The walk goes on from a module that is not its last one: the state of
   *  the walk after the module v at cur. */
  lemma ReadingStep(g: seq<seq<Byte>>, dim: int, whole: Option<seq<Bit>>, s: seq<Byte>,
                    cur: Cursor, v: Byte, ptr: int, ptrEnd: int, bits: seq<Bit>)
    requires Covers(g, dim) && InSymbol(dim, cur) && 0 <= cur.col && v == g[cur.row][cur.col]
    requires 0 <= ptr == |bits| && ptr + |StepBits(v)| < ptrEnd
    requires whole == Prepend(bits, Walk(g, dim, cur, ptrEnd - ptr))
    requires Packed(s, bits + StepBits(v), ptrEnd)
    ensures Reading(g, dim, whole, s, StepNext(dim, cur, v), ptr + |StepBits(v)|, ptrEnd, bits + StepBits(v))
  {
    Carry(g, dim, whole, bits, cur, v, StepNext(dim, cur, v), ptrEnd - ptr, ptrEnd - ptr - |StepBits(v)|);
  }

  /** One module of the decoder's walk at cur, inside the symbol: a data
   *  module's bit is stored in out, and either it was the last bit needed,
   *  or the walk goes on from the next module. */
  method UnloadModule(m: array2<Byte>, dim: int, out: array<Byte>, cur: Cursor, ptr: int, ptrEnd: int,
                      ghost whole: Option<seq<Bit>>, ghost bits: seq<Bit>)
    returns (done: bool, cur': Cursor, ptr': int, ghost bits': seq<Bit>)
    requires dim + 5 == m.Length0 == m.Length1 && 0 <= cur.col
    requires Reading(Cells(m), dim, whole, out[..], cur, ptr, ptrEnd, bits)
    modifies out
    ensures done ==> whole == Some(bits') && CodewordStream(out[..]) == whole.value
    ensures !done ==> Reading(Cells(m), dim, whole, out[..], cur', ptr', ptrEnd, bits')
    ensures !done ==> (StripRight(cur') < StripRight(cur) ||
      (StripRight(cur') == StripRight(cur) && Progress(dim, cur) < Progress(dim, cur') < 2 * dim))
  {
    ghost var g := Cells(m);
    var v := m[cur.row, cur.col];
    CellAt(m, cur.row, cur.col);
    var here := cur;
    ptr' := ptr;
    if !IsNonData(v) {
      StoreBit(out, ptr, v, bits, ptrEnd);
      if ptr + 1 == ptrEnd {
        Finish(g, dim, cur, v, whole, bits, out[..]);
        return true, cur, ptr, bits + [ModuleBit(v)];
      }
      ptr' := ptr + 1;
    } else {
      assert bits + StepBits(v) == bits;
      here := SkipTiming(cur);
    }
    cur' := Advance(dim, here);
    ReadingStep(g, dim, whole, out[..], cur, v, ptr, ptrEnd, bits);
    done, bits' := false, bits + StepBits(v);
  }

  /** The decoder's UnloadDataFromMatrix on the masked matrix m of a symbol
   *  of dimension dim, for n codewords: the bits of the first 8 * n data
   *  modules of the walk, packed into codewords the first bit the most
   *  significant. A walk that leaves the symbol first is a failure. */
  method Unload(m: array2<Byte>, dim: int, n: int) returns (ok: bool, out: array<Byte>)
    requires 1 <= dim && m.Length0 == dim + 5 && m.Length1 == dim + 5 && n >= 1
    ensures fresh(out) && out.Length == n
    ensures ok <==> Walk(Cells(m), dim, Start(dim), 8 * n).Some?
    ensures ok ==> CodewordStream(out[..]) == Walk(Cells(m), dim, Start(dim), 8 * n).value
  {
    var ptr := 0;
    var ptrEnd := 8 * n;
    out := new Byte[n](_ => 0);
    var cur := Start(dim);
    ghost var bits: seq<Bit> := [];
    ghost var whole := Walk(Cells(m), dim, Start(dim), ptrEnd);
    PackedZeros(out[..]);
    PrependNothing(whole);
    while true
      invariant Reading(Cells(m), dim, whole, out[..], cur, ptr, ptrEnd, bits)
      decreases StripRight(cur) + 2, 2 * dim - Progress(dim, cur)
    {
      if cur.col < 0 {
        // the index out of range of the decoder
        WalkOff(Cells(m), dim, cur, ptrEnd - ptr);
        return false, out;
      }
      var done;
      done, cur, ptr, bits := UnloadModule(m, dim, out, cur, ptr, ptrEnd, whole, bits);
      if done {
        return true, out;
      }
    }
  }
}
