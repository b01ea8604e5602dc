/** The block structure of a symbol and the order in which its codewords are
 *  interleaved (ISO/IEC 18004:2015 section 7.6). The message is split into
 *  `blocks1` blocks of `data1` data codewords and `blocks2` blocks of `data2`
 *  data codewords, each followed by `ecc` error correction codewords. The
 *  symbol carries the first data codeword of every block, then the second,
 *  and so on; the extra codeword of the longer blocks comes after the last
 *  full round; the error correction codewords follow, interleaved the same
 *  way. The decoder undoes that order; the functions below give, for each
 *  codeword of the de-interleaved layout, its position in the symbol. */
module Interleave {
  import opened Arith

  datatype BlockLayout = BlockLayout(blocks1: int, data1: int, blocks2: int, data2: int, ecc: int)
  {
    /** Number of blocks. */
    function Total(): int { blocks1 + blocks2 }

    /** Number of data codewords. */
    function MaxData(): int { blocks1 * data1 + blocks2 * data2 }

    /** Number of codewords in the symbol. */
    function MaxCodewords(): int { MaxData() + ecc * Total() }

    /** The shapes the block table holds: group 2 is empty or its blocks are
     *  one data codeword longer. */
    predicate Valid()
    {
      1 <= blocks1 && 1 <= data1 && 0 <= blocks2 && 0 <= ecc &&
      (blocks2 == 0 ==> data2 == 0) && (blocks2 > 0 ==> data2 == data1 + 1)
    }
  }

  /** Where the data codewords of block b start in the de-interleaved layout. */
  function DataStart(l: BlockLayout, b: int): int
  {
    b * l.data1 + (if b > l.blocks1 then b - l.blocks1 else 0)
  }

  /** Number of data codewords of block b. */
  function DataLength(l: BlockLayout, b: int): int
  {
    if b < l.blocks1 then l.data1 else l.data2
  }

  /** Position in the symbol of data codeword j of block b: round j of the
   *  round-robin, or, for the extra codeword of a group 2 block, its turn
   *  after the last full round. */
  function DataSource(l: BlockLayout, b: int, j: int): int
  {
    if j < l.data1 then j * l.Total() + b else l.data1 * l.Total() + (b - l.blocks1)
  }

  /** Where the error correction codewords of block b start. */
  function EccStart(l: BlockLayout, b: int): int
  {
    l.MaxData() + b * l.ecc
  }

  /** Position in the symbol of error correction codeword k of block b. */
  function EccSource(l: BlockLayout, b: int, k: int): int
  {
    l.MaxData() + k * l.Total() + b
  }

  /** The block whose data holds symbol position i (i < MaxData). */
  function SourceBlock(l: BlockLayout, i: int): int
    requires l.Valid()
  {
    if i < l.data1 * l.Total() then i % l.Total() else l.blocks1 + (i - l.data1 * l.Total())
  }

  /** The index within its block of the data codeword at symbol position i. */
  function SourceOffset(l: BlockLayout, i: int): int
    requires l.Valid()
  {
    if i < l.data1 * l.Total() then i / l.Total() else l.data1
  }

  /** The counts add up: the layout ends where the data ends. */
  lemma DataStartOfTotal(l: BlockLayout)
    requires l.Valid()
    ensures DataStart(l, l.Total()) == l.MaxData()
    ensures l.MaxData() == l.data1 * l.Total() + l.blocks2
  {
    if l.blocks2 > 0 {
      assert l.blocks2 * l.data2 == l.blocks2 * l.data1 + l.blocks2;
    }
  }

  /** The parts of the symbol nest: full rounds, then all data, then all
   *  codewords. */
  lemma LayoutBounds(l: BlockLayout)
    requires l.Valid()
    ensures 0 <= l.data1 * l.Total() <= l.MaxData() <= l.MaxCodewords()
  {
    DataStartOfTotal(l);
    MulMonotone(0, l.data1, l.Total());
    MulMonotone(0, l.ecc, l.Total());
  }

  /** Consecutive blocks follow each other without gap or overlap. */
  lemma DataStartStep(l: BlockLayout, b: int)
    requires l.Valid() && 0 <= b < l.Total()
    ensures DataStart(l, b + 1) == DataStart(l, b) + DataLength(l, b)
  {
  }

  /** The data of block b lies before the data of every later block, and
   *  within the data part. */
  lemma {:induction false} DataBlocksOrdered(l: BlockLayout, b: int, c: int)
    requires l.Valid() && 0 <= b < c <= l.Total()
    ensures DataStart(l, b) + DataLength(l, b) <= DataStart(l, c)
    decreases c - b
  {
    DataStartStep(l, b);
    if c > b + 1 {
      DataBlocksOrdered(l, b + 1, c);
      DataStartStep(l, b + 1);
    }
  }

  /** Every block's data lies inside the data part. */
  lemma DataBlockInside(l: BlockLayout, b: int)
    requires l.Valid() && 0 <= b < l.Total()
    ensures 0 <= DataStart(l, b)
    ensures DataStart(l, b) + DataLength(l, b) <= l.MaxData()
  {
    DataStartOfTotal(l);
    DataBlocksOrdered(l, b, l.Total());
  }

  /** Every data codeword of every block comes from a data position of the
   *  symbol, and the pair (block, index) can be read back from that position:
   *  no two data codewords share a symbol position. */
  lemma DataSourceInverse(l: BlockLayout, b: int, j: int)
    requires l.Valid() && 0 <= b < l.Total() && 0 <= j < DataLength(l, b)
    ensures 0 <= DataSource(l, b, j) < l.MaxData()
    ensures SourceBlock(l, DataSource(l, b, j)) == b
    ensures SourceOffset(l, DataSource(l, b, j)) == j
  {
    DataStartOfTotal(l);
    var t := l.Total();
    if j < l.data1 {
      DivModOfSum(j, t, b);
      MulMonotone(j + 1, l.data1, t);
    }
  }

  /** Every data position of the symbol is the source of the data codeword
   *  SourceOffset of block SourceBlock: the de-interleave reads every data
   *  codeword of the symbol. */
  lemma DataSourceOnto(l: BlockLayout, i: int)
    requires l.Valid() && 0 <= i < l.MaxData()
    ensures 0 <= SourceBlock(l, i) < l.Total()
    ensures 0 <= SourceOffset(l, i) < DataLength(l, SourceBlock(l, i))
    ensures DataSource(l, SourceBlock(l, i), SourceOffset(l, i)) == i
  {
    DataStartOfTotal(l);
    var t := l.Total();
    var m := l.data1 * t;
    if i < m {
      var q, r := i / t, i % t;
      assert i == q * t + r && 0 <= r < t;
      if q >= l.data1 {
        MulMonotone(l.data1, q, t);
      }
      assert SourceBlock(l, i) == r && SourceOffset(l, i) == q;
    } else {
      assert SourceBlock(l, i) == l.blocks1 + (i - m) && SourceOffset(l, i) == l.data1;
    }
  }

  /** The same for the error correction codewords: codeword k of block b sits
   *  at round k of the second round-robin, and every position of that part is
   *  reached exactly once. */
  lemma EccSourceInverse(l: BlockLayout, b: int, k: int)
    requires l.Valid() && 0 <= b < l.Total() && 0 <= k < l.ecc
    ensures l.MaxData() <= EccSource(l, b, k) < l.MaxCodewords()
    ensures (EccSource(l, b, k) - l.MaxData()) % l.Total() == b
    ensures (EccSource(l, b, k) - l.MaxData()) / l.Total() == k
  {
    var t := l.Total();
    DivModOfSum(k, t, b);
    MulMonotone(k + 1, l.ecc, t);
  }

  /** Error correction codeword k of block b lies inside its block's part. */
  lemma EccBlockInside(l: BlockLayout, b: int, k: int)
    requires l.Valid() && 0 <= b < l.Total() && 0 <= k < l.ecc
    ensures l.MaxData() <= EccStart(l, b) + k < l.MaxCodewords()
  {
    MulMonotone(b + 1, l.Total(), l.ecc);
  }

  /** Every error correction position of the symbol is the source of one
   *  error correction codeword: the one of block (i - MaxData) % Total at
   *  round (i - MaxData) / Total. */
  lemma EccSourceOnto(l: BlockLayout, i: int)
    requires l.Valid() && l.MaxData() <= i < l.MaxCodewords()
    ensures var b := (i - l.MaxData()) % l.Total();
      var k := (i - l.MaxData()) / l.Total();
      0 <= b < l.Total() && 0 <= k < l.ecc && EccSource(l, b, k) == i
  {
    var t := l.Total();
    var k := (i - l.MaxData()) / t;
    assert i - l.MaxData() == k * t + (i - l.MaxData()) % t;
    if k >= l.ecc {
      MulMonotone(l.ecc, k, t);
    }
  }

  /** The error correction codewords of block b lie before those of every
   *  later block. */
  lemma EccBlocksOrdered(l: BlockLayout, b: int, c: int)
    requires l.Valid() && 0 <= b < c
    ensures EccStart(l, b) + l.ecc <= EccStart(l, c)
  {
    MulMonotone(b + 1, c, l.ecc);
  }

  /** Data codewords 0 .. n-1 of block b sit at their place in `out`, taken
   *  from their interleaved position in `src`. */
  ghost predicate DataPlaced<T>(l: BlockLayout, out: seq<T>, src: seq<T>, b: int, n: int)
  {
    forall j {:trigger DataSource(l, b, j)} :: 0 <= j < n ==>
      0 <= DataStart(l, b) + j < |out| && 0 <= DataSource(l, b, j) < |src| &&
      out[DataStart(l, b) + j] == src[DataSource(l, b, j)]
  }

  /** Error correction codewords 0 .. n-1 of block b sit at their place in
   *  `out`, taken from their interleaved position in `src`. */
  ghost predicate EccPlaced<T>(l: BlockLayout, out: seq<T>, src: seq<T>, b: int, n: int)
  {
    forall k {:trigger EccSource(l, b, k)} :: 0 <= k < n ==>
      0 <= EccStart(l, b) + k < |out| && 0 <= EccSource(l, b, k) < |src| &&
      out[EccStart(l, b) + k] == src[EccSource(l, b, k)]
  }

  /** `out` is the de-interleaved form of the symbol's codewords `src`: every
   *  codeword of every block sits at its place. */
  ghost predicate Restored<T>(l: BlockLayout, out: seq<T>, src: seq<T>)
  {
    |out| == |src| == l.MaxCodewords() &&
    forall b :: 0 <= b < l.Total() ==> DataPlaced(l, out, src, b, DataLength(l, b)) && EccPlaced(l, out, src, b, l.ecc)
  }

  /** Every position of the de-interleaved layout belongs to one codeword of
   *  one block: (b, j) for the data part, (b, k) for the error correction
   *  part. */
  lemma {:induction false} DataPositionCovered(l: BlockLayout, c: int, i: int) returns (b: int, j: int)
    requires l.Valid() && 0 <= c < l.Total() && DataStart(l, c) <= i < l.MaxData()
    ensures c <= b < l.Total() && 0 <= j < DataLength(l, b) && DataStart(l, b) + j == i
    decreases l.Total() - c
  {
    DataStartStep(l, c);
    if i < DataStart(l, c) + DataLength(l, c) {
      b, j := c, i - DataStart(l, c);
    } else {
      DataStartOfTotal(l);
      if c + 1 == l.Total() {
        assert false;
      }
      b, j := DataPositionCovered(l, c + 1, i);
    }
  }

  lemma EccPositionCovered(l: BlockLayout, i: int) returns (b: int, k: int)
    requires l.Valid() && l.MaxData() <= i < l.MaxCodewords()
    ensures 0 <= b < l.Total() && 0 <= k < l.ecc && EccStart(l, b) + k == i
  {
    var d := i - l.MaxData();
    assert l.ecc > 0;
    b, k := d / l.ecc, d % l.ecc;
    assert d == b * l.ecc + k;
    if b >= l.Total() {
      MulMonotone(l.Total(), b, l.ecc);
    }
  }

  /** The de-interleaved layout is determined by the symbol's codewords: two
   *  restorations of the same codewords are equal. */
  lemma RestoredUnique<T>(l: BlockLayout, out1: seq<T>, out2: seq<T>, src: seq<T>)
    requires l.Valid() && Restored(l, out1, src) && Restored(l, out2, src)
    ensures out1 == out2
  {
    forall i | 0 <= i < |out1|
      ensures out1[i] == out2[i]
    {
      if i < l.MaxData() {
        DataStartOfTotal(l);
        var b, j := DataPositionCovered(l, 0, i);
        assert DataPlaced(l, out1, src, b, DataLength(l, b));
        assert DataPlaced(l, out2, src, b, DataLength(l, b));
        assert out1[DataStart(l, b) + j] == src[DataSource(l, b, j)] == out2[DataStart(l, b) + j];
      } else {
        var b, k := EccPositionCovered(l, i);
        assert EccPlaced(l, out1, src, b, l.ecc);
        assert EccPlaced(l, out2, src, b, l.ecc);
        assert out1[EccStart(l, b) + k] == src[EccSource(l, b, k)] == out2[EccStart(l, b) + k];
      }
    }
  }

  /** Nothing is lost: every codeword of the symbol appears in the
   *  de-interleaved layout, at the place of the codeword whose source it is. */
  lemma RestoredKeepsAll<T>(l: BlockLayout, out: seq<T>, src: seq<T>, i: int) returns (p: int)
    requires l.Valid() && Restored(l, out, src) && 0 <= i < |src|
    ensures 0 <= p < |out| && out[p] == src[i]
  {
    if i < l.MaxData() {
      DataSourceOnto(l, i);
      var b, j := SourceBlock(l, i), SourceOffset(l, i);
      assert DataPlaced(l, out, src, b, DataLength(l, b));
      p := DataStart(l, b) + j;
    } else {
      EccSourceOnto(l, i);
      var b, k := (i - l.MaxData()) % l.Total(), (i - l.MaxData()) / l.Total();
      assert EccPlaced(l, out, src, b, l.ecc);
      p := EccStart(l, b) + k;
    }
  }

  /** Writing outside a block's placed codewords keeps them placed. */
  lemma DataPlacedKeep<T>(l: BlockLayout, out: seq<T>, src: seq<T>, b: int, n: int, x: int, v: T)
    requires DataPlaced(l, out, src, b, n) && 0 <= x < |out|
    requires x < DataStart(l, b) || DataStart(l, b) + n <= x
    ensures DataPlaced(l, out[x := v], src, b, n)
  {
    var out' := out[x := v];
    assert |out'| == |out|;
    forall j | 0 <= j < n
      ensures 0 <= DataStart(l, b) + j < |out'| && 0 <= DataSource(l, b, j) < |src| &&
        out'[DataStart(l, b) + j] == src[DataSource(l, b, j)]
    {
      var i := DataSource(l, b, j);
      assert 0 <= DataStart(l, b) + j < |out| && 0 <= i < |src| && out[DataStart(l, b) + j] == src[i];
      assert DataStart(l, b) + j != x;
    }
    assert DataPlaced(l, out', src, b, n);
  }

  /** Writing a block's next codeword at its place extends the placed part. */
  lemma DataPlacedExtend<T>(l: BlockLayout, out: seq<T>, src: seq<T>, b: int, n: int, x: int, v: T)
    requires DataPlaced(l, out, src, b, n) && 0 <= n && x == DataStart(l, b) + n && 0 <= x < |out|
    requires 0 <= DataSource(l, b, n) < |src| && v == src[DataSource(l, b, n)]
    ensures DataPlaced(l, out[x := v], src, b, n + 1)
  {
  }

  lemma EccPlacedKeep<T>(l: BlockLayout, out: seq<T>, src: seq<T>, b: int, n: int, x: int, v: T)
    requires EccPlaced(l, out, src, b, n) && 0 <= x < |out|
    requires x < EccStart(l, b) || EccStart(l, b) + n <= x
    ensures EccPlaced(l, out[x := v], src, b, n)
  {
    var out' := out[x := v];
    assert |out'| == |out|;
    forall k | 0 <= k < n
      ensures 0 <= EccStart(l, b) + k < |out'| && 0 <= EccSource(l, b, k) < |src| &&
        out'[EccStart(l, b) + k] == src[EccSource(l, b, k)]
    {
      var i := EccSource(l, b, k);
      assert 0 <= EccStart(l, b) + k < |out| && 0 <= i < |src| && out[EccStart(l, b) + k] == src[i];
      assert EccStart(l, b) + k != x;
    }
    assert EccPlaced(l, out', src, b, n);
  }

  lemma EccPlacedExtend<T>(l: BlockLayout, out: seq<T>, src: seq<T>, b: int, n: int, x: int, v: T)
    requires EccPlaced(l, out, src, b, n) && 0 <= n && x == EccStart(l, b) + n && 0 <= x < |out|
    requires 0 <= EccSource(l, b, n) < |src| && v == src[EccSource(l, b, n)]
    ensures EccPlaced(l, out[x := v], src, b, n + 1)
  {
  }

  /** Codewords placed in block b after `round` full rounds and `block` more
   *  steps of a round-robin. */
  function RoundProgress(b: int, round: int, block: int): int
  {
    round + (if b < block then 1 else 0)
  }

  /** Data codewords placed in block b once the first `filled` group two
   *  blocks have received their extra codeword. */
  function ExtraProgress(l: BlockLayout, b: int, filled: int): int
  {
    l.data1 + (if l.blocks1 <= b < l.blocks1 + filled then 1 else 0)
  }

  /** The data of any other block lies entirely before or entirely after the
   *  data of block c. */
  lemma SeparateDataBlocks(l: BlockLayout, c: int)
    requires l.Valid() && 0 <= c < l.Total()
    ensures forall b :: 0 <= b < c ==> DataStart(l, b) + DataLength(l, b) <= DataStart(l, c)
    ensures forall b :: c < b < l.Total() ==> DataStart(l, c) + DataLength(l, c) <= DataStart(l, b)
  {
    forall b | 0 <= b < c
      ensures DataStart(l, b) + DataLength(l, b) <= DataStart(l, c)
    {
      DataBlocksOrdered(l, b, c);
    }
    forall b | c < b < l.Total()
      ensures DataStart(l, c) + DataLength(l, c) <= DataStart(l, b)
    {
      DataBlocksOrdered(l, c, b);
    }
  }

  /** The error correction codewords of any other block lie entirely before or
   *  entirely after those of block c. */
  lemma SeparateEccBlocks(l: BlockLayout, c: int)
    requires l.Valid() && 0 <= c < l.Total()
    ensures forall b :: 0 <= b < c ==> EccStart(l, b) + l.ecc <= EccStart(l, c)
    ensures forall b :: c < b < l.Total() ==> EccStart(l, c) + l.ecc <= EccStart(l, b)
  {
    forall b | 0 <= b < c
      ensures EccStart(l, b) + l.ecc <= EccStart(l, c)
    {
      EccBlocksOrdered(l, b, c);
    }
    forall b | c < b < l.Total()
      ensures EccStart(l, c) + l.ecc <= EccStart(l, b)
    {
      EccBlocksOrdered(l, c, b);
    }
  }

  /** Data codewords lie before the error correction codewords. */
  lemma SeparateDataFromEcc(l: BlockLayout)
    requires l.Valid()
    ensures forall b :: 0 <= b < l.Total() ==> DataStart(l, b) + DataLength(l, b) <= l.MaxData()
    ensures forall b :: 0 <= b < l.Total() ==> l.MaxData() <= EccStart(l, b)
  {
    forall b | 0 <= b < l.Total()
      ensures DataStart(l, b) + DataLength(l, b) <= l.MaxData()
    {
      DataBlockInside(l, b);
    }
  }

  /** The data round-robin has placed `round` codewords of every block and
   *  one more of the blocks before `block`. */
  ghost predicate DataRoundsDone<T>(l: BlockLayout, out: seq<T>, src: seq<T>, round: int, block: int)
  {
    forall b :: 0 <= b < l.Total() ==> DataPlaced(l, out, src, b, RoundProgress(b, round, block))
  }

  /** The full rounds are placed, and the extra codeword of the first
   *  `filled` group two blocks. */
  ghost predicate ExtraDone<T>(l: BlockLayout, out: seq<T>, src: seq<T>, filled: int)
  {
    forall b :: 0 <= b < l.Total() ==> DataPlaced(l, out, src, b, ExtraProgress(l, b, filled))
  }

  /** All data codewords are placed. */
  ghost predicate DataDone<T>(l: BlockLayout, out: seq<T>, src: seq<T>)
  {
    forall b :: 0 <= b < l.Total() ==> DataPlaced(l, out, src, b, DataLength(l, b))
  }

  /** The error correction round-robin has placed `round` codewords of every
   *  block and one more of the blocks before `block`. */
  ghost predicate EccRoundsDone<T>(l: BlockLayout, out: seq<T>, src: seq<T>, round: int, block: int)
  {
    forall b :: 0 <= b < l.Total() ==> EccPlaced(l, out, src, b, RoundProgress(b, round, block))
  }

  /** The stages of the de-interleave connect: full rounds then the extra
   *  round give all data, and all data with all error correction codewords
   *  is the restored layout. */
  lemma DataRoundsToExtra<T>(l: BlockLayout, out: seq<T>, src: seq<T>)
    requires l.Valid() && DataRoundsDone(l, out, src, l.data1, 0)
    ensures ExtraDone(l, out, src, 0)
    ensures l.blocks2 == 0 ==> DataDone(l, out, src)
  {
    forall b | 0 <= b < l.Total()
      ensures DataPlaced(l, out, src, b, ExtraProgress(l, b, 0))
    {
      assert RoundProgress(b, l.data1, 0) == ExtraProgress(l, b, 0);
    }
    if l.blocks2 == 0 {
      forall b | 0 <= b < l.Total()
        ensures DataPlaced(l, out, src, b, DataLength(l, b))
      {
        assert RoundProgress(b, l.data1, 0) == DataLength(l, b);
      }
    }
  }

  lemma ExtraToDataDone<T>(l: BlockLayout, out: seq<T>, src: seq<T>)
    requires l.Valid() && ExtraDone(l, out, src, l.blocks2)
    ensures DataDone(l, out, src)
  {
    forall b | 0 <= b < l.Total()
      ensures DataPlaced(l, out, src, b, DataLength(l, b))
    {
      assert ExtraProgress(l, b, l.blocks2) == DataLength(l, b);
    }
  }

  lemma RoundsToRestored<T>(l: BlockLayout, out: seq<T>, src: seq<T>)
    requires l.Valid() && |out| == |src| == l.MaxCodewords()
    requires DataDone(l, out, src) && EccRoundsDone(l, out, src, l.ecc, 0)
    ensures Restored(l, out, src)
  {
    forall b | 0 <= b < l.Total()
      ensures DataPlaced(l, out, src, b, DataLength(l, b)) && EccPlaced(l, out, src, b, l.ecc)
    {
      assert RoundProgress(b, l.ecc, 0) == l.ecc;
    }
  }

  /** One step of a round-robin over the data: codeword `round` of block
   *  `block` is written at its place; the next step is the next block, or the
   *  first block of the next round. */
  lemma DataRoundStep<T>(l: BlockLayout, out: seq<T>, src: seq<T>, round: int, block: int, x: int,
                         round': int, block': int)
    requires l.Valid() && 0 <= block < l.Total() && 0 <= round < l.data1
    requires (block + 1 < l.Total() && round' == round && block' == block + 1) ||
      (block + 1 == l.Total() && round' == round + 1 && block' == 0)
    requires x == DataStart(l, block) + round && 0 <= x < |out| && 0 <= DataSource(l, block, round) < |src|
    requires DataRoundsDone(l, out, src, round, block)
    ensures DataRoundsDone(l, out[x := src[DataSource(l, block, round)]], src, round', block')
  {
    SeparateDataBlocks(l, block);
    var v := src[DataSource(l, block, round)];
    forall b | 0 <= b < l.Total()
      ensures DataPlaced(l, out[x := v], src, b, RoundProgress(b, round', block'))
    {
      var n := RoundProgress(b, round, block);
      assert DataPlaced(l, out, src, b, n);
      if b == block {
        DataPlacedExtend(l, out, src, b, n, x, v);
      } else if b < block {
        assert n == round + 1 <= DataLength(l, b);
        DataPlacedKeep(l, out, src, b, n, x, v);
      } else {
        assert x < DataStart(l, block) + DataLength(l, block) <= DataStart(l, b);
        DataPlacedKeep(l, out, src, b, n, x, v);
      }
    }
  }

  /** One step of the extra round: the extra codeword of group two block
   *  `block` = blocks1 + filled is written at its place. */
  lemma ExtraRoundStep<T>(l: BlockLayout, out: seq<T>, src: seq<T>, filled: int, x: int, filled': int)
    requires l.Valid() && 0 <= filled < l.blocks2 && filled' == filled + 1
    requires x == DataStart(l, l.blocks1 + filled) + l.data1 && 0 <= x < |out|
    requires 0 <= DataSource(l, l.blocks1 + filled, l.data1) < |src|
    requires ExtraDone(l, out, src, filled)
    ensures ExtraDone(l, out[x := src[DataSource(l, l.blocks1 + filled, l.data1)]], src, filled')
  {
    var block := l.blocks1 + filled;
    SeparateDataBlocks(l, block);
    var v := src[DataSource(l, block, l.data1)];
    forall b | 0 <= b < l.Total()
      ensures DataPlaced(l, out[x := v], src, b, ExtraProgress(l, b, filled'))
    {
      var n := ExtraProgress(l, b, filled);
      assert DataPlaced(l, out, src, b, n);
      if b == block {
        DataPlacedExtend(l, out, src, b, n, x, v);
      } else if b < block {
        assert n <= DataLength(l, b);
        DataPlacedKeep(l, out, src, b, n, x, v);
      } else {
        assert x < DataStart(l, block) + DataLength(l, block) <= DataStart(l, b);
        DataPlacedKeep(l, out, src, b, n, x, v);
      }
    }
  }

  /** One step of the round-robin over the error correction codewords; the
   *  data part is not touched. */
  lemma EccRoundStep<T>(l: BlockLayout, out: seq<T>, src: seq<T>, round: int, block: int, x: int,
                        round': int, block': int)
    requires l.Valid() && 0 <= block < l.Total() && 0 <= round < l.ecc
    requires (block + 1 < l.Total() && round' == round && block' == block + 1) ||
      (block + 1 == l.Total() && round' == round + 1 && block' == 0)
    requires x == EccStart(l, block) + round && 0 <= x < |out| && 0 <= EccSource(l, block, round) < |src|
    requires DataDone(l, out, src) && EccRoundsDone(l, out, src, round, block)
    ensures DataDone(l, out[x := src[EccSource(l, block, round)]], src)
    ensures EccRoundsDone(l, out[x := src[EccSource(l, block, round)]], src, round', block')
  {
    SeparateEccBlocks(l, block);
    SeparateDataFromEcc(l);
    var v := src[EccSource(l, block, round)];
    forall b | 0 <= b < l.Total()
      ensures DataPlaced(l, out[x := v], src, b, DataLength(l, b))
      ensures EccPlaced(l, out[x := v], src, b, RoundProgress(b, round', block'))
    {
      DataPlacedKeep(l, out, src, b, DataLength(l, b), x, v);
      if b == block {
        EccPlacedExtend(l, out, src, b, round, x, v);
      } else {
        EccPlacedKeep(l, out, src, b, RoundProgress(b, round, block), x, v);
      }
    }
  }
}
