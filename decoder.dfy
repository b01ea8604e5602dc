/** The decoder object: the state one decoding attempt builds up, stage by
 *  stage, from the sampled modules of a symbol to its payload bytes. */
module Decoder {
  import opened Bytes
  import opened Arith
  import opened CodeTables
  import opened Interleave
  import opened Restore
  import opened BitStream
  import opened Segments
  import opened Wrappers
  import QRConstants
  import Metadata
  import RS = ReedSolomon
  import Masks
  import Placement
  import Matrix
  import Patterns = Layout
  import Sampler
  import Binarizer

  /** Valid groups, and blocks that fit in the 255 positions the logarithm
   *  table addresses. */
  predicate BlocksFit(l: BlockLayout)
  {
    l.Valid() && 7 <= l.ecc <= 30 && l.data1 + 1 + l.ecc <= 255
  }

  /** The shapes of block structure the table holds: blocks that fit, and a
   *  generator polynomial for the error correction codewords of a block. */
  ghost predicate TableShaped(l: BlockLayout)
  {
    BlocksFit(l) && |GenArray(l.ecc - 7)| == l.ecc
  }

  /** The generator polynomial for the error correction codewords of a block
   *  of the layout. */
  function Generator(l: BlockLayout): (gen: seq<Exponent>)
    requires TableShaped(l)
    ensures |gen| == l.ecc
  {
    GenArray(l.ecc - 7)
  }

  /** The row of the block table for a version and error correction level, as
   *  a block structure, with the facts the decoder relies on. */
  lemma TableLayout(version: int, level: int) returns (l: BlockLayout)
    requires 1 <= version <= 40 && QRConstants.IsErrorTolerance(level)
    ensures var index := (version - 1) * 4 + level;
      0 <= index < 160 &&
      l.blocks1 == ECBlockInfo(index, BLOCKS_GROUP1) && l.data1 == ECBlockInfo(index, DATA_CODEWORDS_GROUP1) &&
      l.blocks2 == ECBlockInfo(index, BLOCKS_GROUP2) && l.data2 == ECBlockInfo(index, DATA_CODEWORDS_GROUP2)
    ensures l.Total() > 0
    ensures TableShaped(l) && l.MaxCodewords() == MaxCodewordsArray(version)
  {
    var index := (version - 1) * 4 + level;
    DivModOfSum(version - 1, 4, level);
    assert index / 4 + 1 == version;
    l := TableRow(index);
  }

  /** Row `index` of the block table as a block structure. */
  lemma TableRow(index: int) returns (l: BlockLayout)
    requires 0 <= index < 160
    ensures l.blocks1 == ECBlockInfo(index, BLOCKS_GROUP1) && l.data1 == ECBlockInfo(index, DATA_CODEWORDS_GROUP1)
    ensures l.blocks2 == ECBlockInfo(index, BLOCKS_GROUP2) && l.data2 == ECBlockInfo(index, DATA_CODEWORDS_GROUP2)
    ensures l.Total() > 0
    ensures TableShaped(l) && l.MaxCodewords() == MaxCodewordsArray(index / 4 + 1)
  {
    var b1, d1 := ECBlockInfo(index, BLOCKS_GROUP1), ECBlockInfo(index, DATA_CODEWORDS_GROUP1);
    var b2, d2 := ECBlockInfo(index, BLOCKS_GROUP2), ECBlockInfo(index, DATA_CODEWORDS_GROUP2);
    var ecc := ErrCorrCodewordsOf(index);
    var data := b1 * d1 + b2 * d2;
    assert 1 <= b1 && 1 <= d1 && 0 <= b2 && (b2 == 0 <==> d2 == 0) && (d2 == 0 || d2 == d1 + 1) &&
      MaxCodewordsArray(index / 4 + 1) - data == ecc * (b1 + b2) && 7 <= ecc <= 30 && |GenArray(ecc - 7)| == ecc && d1 + 1 + ecc <= 255
    by {
      BlockLayoutConsistent(index);
    }
    l := RowLayout(b1, d1, b2, d2, MaxCodewordsArray(index / 4 + 1), ecc);
  }

  /** A row whose counts add up is a block structure of the table's shape. */
  lemma RowLayout(b1: int, d1: int, b2: int, d2: int, maxCodewords: int, ecc: int) returns (l: BlockLayout)
    requires 1 <= b1 && 1 <= d1 && 0 <= b2 && (b2 == 0 <==> d2 == 0) && (d2 == 0 || d2 == d1 + 1)
    requires maxCodewords - (b1 * d1 + b2 * d2) == ecc * (b1 + b2)
    requires 7 <= ecc <= 30 && |GenArray(ecc - 7)| == ecc && d1 + 1 + ecc <= 255
    ensures l.blocks1 == b1 && l.data1 == d1 && l.blocks2 == b2 && l.data2 == d2
    ensures l.Total() > 0 && l.ecc == (maxCodewords - l.MaxData()) / l.Total()
    ensures TableShaped(l) && l.MaxCodewords() == maxCodewords
  {
    QuotientOfExactProduct(maxCodewords - (b1 * d1 + b2 * d2), b1 + b2, ecc);
    l := BlockLayout(b1, d1, b2, d2, ecc);
  }

  /** The block table lookup of SetDataCodewordsLength: the four group
   *  columns of the row of the version and level, and the error correction
   *  codewords per block as the codewords that are not data divided evenly
   *  among the blocks. */
  method LookupLayout(version: int, level: int) returns (l: BlockLayout)
    requires 1 <= version <= 40 && QRConstants.IsErrorTolerance(level)
    ensures var index := (version - 1) * 4 + level;
      0 <= index < 160 &&
      l.blocks1 == ECBlockInfo(index, BLOCKS_GROUP1) && l.data1 == ECBlockInfo(index, DATA_CODEWORDS_GROUP1) &&
      l.blocks2 == ECBlockInfo(index, BLOCKS_GROUP2) && l.data2 == ECBlockInfo(index, DATA_CODEWORDS_GROUP2)
    ensures TableShaped(l) && l.MaxCodewords() == MaxCodewordsArray(version)
  {
    var blockInfoIndex := (version - 1) * 4 + level;
    ghost var row := TableLayout(version, level);
    var b1, d1 := ECBlockInfo(blockInfoIndex, BLOCKS_GROUP1), ECBlockInfo(blockInfoIndex, DATA_CODEWORDS_GROUP1);
    var b2, d2 := ECBlockInfo(blockInfoIndex, BLOCKS_GROUP2), ECBlockInfo(blockInfoIndex, DATA_CODEWORDS_GROUP2);
    var maxData := b1 * d1 + b2 * d2;
    assert maxData == row.MaxData();
    var maxCodewords := MaxCodewordsArray(version);
    assert b1 + b2 == row.Total() && maxCodewords - maxData == MaxCodewordsArray(version) - row.MaxData();
    var ecc := (maxCodewords - maxData) / (b1 + b2);
    QuotientOfExactProduct(maxCodewords - maxData, b1 + b2, row.ecc);
    l := BlockLayout(b1, d1, b2, d2, ecc);
    assert l == row;
  }

  // ----- Blocks after de-interleaving -----

  /** The error correction codewords of block b end inside the symbol. */
  lemma EccBlockEnd(l: BlockLayout, b: int)
    requires l.Valid() && 0 <= b < l.Total()
    ensures l.MaxData() <= EccStart(l, b) && EccStart(l, b) + l.ecc <= l.MaxCodewords()
    ensures EccStart(l, b + 1) == EccStart(l, b) + l.ecc
  {
    MulMonotone(b + 1, l.Total(), l.ecc);
    MulMonotone(0, b, l.ecc);
    MulSucc(b, l.ecc);
  }

  /** The data codewords of block b in the de-interleaved codewords. */
  ghost function DataOf(l: BlockLayout, cw: seq<Byte>, b: int): (d: seq<Byte>)
    requires l.Valid() && 0 <= b < l.Total() && |cw| == l.MaxCodewords()
    ensures |d| == DataLength(l, b)
  {
    DataBlockInside(l, b);
    LayoutBounds(l);
    cw[DataStart(l, b)..DataStart(l, b) + DataLength(l, b)]
  }

  /** The error correction codewords of block b. */
  ghost function EccOf(l: BlockLayout, cw: seq<Byte>, b: int): (e: seq<Byte>)
    requires l.Valid() && 0 <= b < l.Total() && |cw| == l.MaxCodewords()
    ensures |e| == l.ecc
  {
    EccBlockEnd(l, b);
    cw[EccStart(l, b)..EccStart(l, b) + l.ecc]
  }

  /** Block b passes the check: its codewords leave no remainder when divided
   *  by gen, the generator polynomial of the error correction codewords. */
  ghost predicate BlockPasses(l: BlockLayout, gen: seq<Exponent>, cw: seq<Byte>, b: int)
    requires BlocksFit(l) && |gen| == l.ecc && 0 <= b < l.Total() && |cw| == l.MaxCodewords()
  {
    RS.AllZero(RS.Remainder(DataOf(l, cw, b) + EccOf(l, cw, b), gen))
  }

  /** A block passes exactly when its error correction codewords are the
   *  ones an encoder computes from its data. */
  lemma BlockPassesIffEncoded(l: BlockLayout, gen: seq<Exponent>, cw: seq<Byte>, b: int)
    requires BlocksFit(l) && |gen| == l.ecc && 0 <= b < l.Total() && |cw| == l.MaxCodewords()
    ensures BlockPasses(l, gen, cw, b) <==> EccOf(l, cw, b) == RS.CheckCodewords(DataOf(l, cw, b), gen)
  {
    RS.CheckPassesIffEncoded(DataOf(l, cw, b), EccOf(l, cw, b), gen);
  }

  /** What CorrectData makes of block b: its data and error correction
   *  codewords corrected as one block. */
  ghost function Repair(l: BlockLayout, cw0: seq<Byte>, b: int): (o: RS.Outcome)
    requires BlocksFit(l) && 0 <= b < l.Total() && |cw0| == l.MaxCodewords()
    ensures |o.data| == DataLength(l, b) + l.ecc
  {
    var block := BlockCodewords(l, cw0, b);
    RS.CorrectionOf(block, |block|, l.ecc)
  }

  /** The data and then the error correction codewords of block b. */
  ghost function BlockCodewords(l: BlockLayout, cw0: seq<Byte>, b: int): (block: seq<Byte>)
    requires BlocksFit(l) && 0 <= b < l.Total() && |cw0| == l.MaxCodewords()
    ensures 1 <= |block| <= 255 && |block| == DataLength(l, b) + l.ecc
  {
    DataOf(l, cw0, b) + EccOf(l, cw0, b)
  }

  /** The corrections of the first n blocks, in block order. */
  ghost function Repairs(l: BlockLayout, cw0: seq<Byte>, n: int): (fixes: seq<RS.Outcome>)
    requires BlocksFit(l) && 0 <= n <= l.Total() && |cw0| == l.MaxCodewords()
    ensures |fixes| == n
    ensures forall b {:trigger fixes[b]} :: 0 <= b < n ==> fixes[b] == Repair(l, cw0, b) && |fixes[b].data| == DataLength(l, b) + l.ecc
  {
    seq(n, b requires 0 <= b < n => Repair(l, cw0, b))
  }

  /** One outcome per block, each as long as its block. */
  predicate FixesShaped(l: BlockLayout, fixes: seq<RS.Outcome>)
  {
    |fixes| == l.Total() && forall b :: 0 <= b < l.Total() ==> |fixes[b].data| == DataLength(l, b) + l.ecc
  }

  /** The check result of every block. */
  ghost function Verdicts(l: BlockLayout, gen: seq<Exponent>, cw: seq<Byte>): (v: seq<bool>)
    requires BlocksFit(l) && |gen| == l.ecc && |cw| == l.MaxCodewords()
    ensures |v| == l.Total()
    ensures forall b {:trigger BlockPasses(l, gen, cw, b)} :: 0 <= b < l.Total() ==> (v[b] <==> BlockPasses(l, gen, cw, b))
  {
    seq(l.Total(), b requires 0 <= b < l.Total() => BlockPasses(l, gen, cw, b))
  }

  /** The verdict and the correction recorded for block b are its own. */
  ghost predicate Planned(l: BlockLayout, gen: seq<Exponent>, cw0: seq<Byte>, verdicts: seq<bool>, fixes: seq<RS.Outcome>, b: int)
    requires BlocksFit(l) && |gen| == l.ecc && 0 <= b < l.Total() && |cw0| == l.MaxCodewords()
    requires |verdicts| == l.Total() && |fixes| == l.Total()
  {
    verdicts[b] == BlockPasses(l, gen, cw0, b) && fixes[b] == Repair(l, cw0, b)
  }

  /** Block b passed the check (verdicts[b]), or its correction fixes[b]
   *  corrects at least one error; any other block aborts the decoding
   *  attempt. */
  predicate Repairable(l: BlockLayout, verdicts: seq<bool>, fixes: seq<RS.Outcome>, b: int)
    requires 0 <= b < l.Total() && |verdicts| == l.Total() && FixesShaped(l, fixes)
  {
    verdicts[b] || fixes[b].errors > 0
  }

  /** The data block b holds after the block loop: as received (in cw0)
   *  when it passed the check, else the data part of its correction. */
  ghost function Expected(l: BlockLayout, cw0: seq<Byte>, verdicts: seq<bool>, fixes: seq<RS.Outcome>, b: int): (d: seq<Byte>)
    requires l.Valid() && 0 <= b < l.Total() && |cw0| == l.MaxCodewords() && |verdicts| == l.Total() && FixesShaped(l, fixes)
    ensures |d| == DataLength(l, b)
  {
    if verdicts[b] then DataOf(l, cw0, b) else fixes[b].data[..DataLength(l, b)]
  }

  /** The blocks before c keep their data while the codewords before the
   *  start of block c are untouched. */
  lemma EarlierBlocksKept(l: BlockLayout, before: seq<Byte>, after: seq<Byte>, c: int)
    requires l.Valid() && 0 <= c < l.Total() && |before| == |after| == l.MaxCodewords()
    requires 0 <= DataStart(l, c) <= |before| && after[..DataStart(l, c)] == before[..DataStart(l, c)]
    ensures forall b :: 0 <= b < c ==> DataOf(l, after, b) == DataOf(l, before, b)
  {
    forall b | 0 <= b < c
      ensures DataOf(l, after, b) == DataOf(l, before, b)
    {
      DataBlocksOrdered(l, b, c);
      DataBlockInside(l, b);
      SliceOfPrefix(after, before, DataStart(l, c), DataStart(l, b), DataStart(l, b) + DataLength(l, b));
    }
  }

  /** A slice inside an unchanged suffix is unchanged. */
  lemma SliceOfSuffix(cw: seq<Byte>, cw0: seq<Byte>, p: int, q: int, r: int)
    requires 0 <= p <= q <= r <= |cw| == |cw0| && cw[p..] == cw0[p..]
    ensures cw[q..r] == cw0[q..r]
  {
    forall i | q <= i < r
      ensures cw[i] == cw0[i]
    {
      assert cw[i] == cw[p..][i - p] && cw0[i] == cw0[p..][i - p];
    }
  }

  /** A slice inside an unchanged prefix is unchanged. */
  lemma SliceOfPrefix(cw: seq<Byte>, cw0: seq<Byte>, p: int, q: int, r: int)
    requires 0 <= q <= r <= p <= |cw| == |cw0| && cw[..p] == cw0[..p]
    ensures cw[q..r] == cw0[q..r]
  {
    assert cw[q..r] == cw[..p][q..r];
    assert cw0[q..r] == cw0[..p][q..r];
  }

  /** The blocks from c on keep their data while the codewords from the
   *  start of block c are untouched. */
  lemma LaterBlocksKept(l: BlockLayout, cw0: seq<Byte>, cw: seq<Byte>, c: int)
    requires l.Valid() && 0 <= c < l.Total() && |cw0| == |cw| == l.MaxCodewords()
    requires 0 <= DataStart(l, c) <= |cw| && cw[DataStart(l, c)..] == cw0[DataStart(l, c)..]
    ensures forall b :: c <= b < l.Total() ==> DataOf(l, cw, b) == DataOf(l, cw0, b)
  {
    forall b | c <= b < l.Total()
      ensures DataOf(l, cw, b) == DataOf(l, cw0, b)
    {
      DataBlockInside(l, b);
      if b > c {
        DataBlocksOrdered(l, c, b);
      }
      SliceOfSuffix(cw, cw0, DataStart(l, c), DataStart(l, b), DataStart(l, b) + DataLength(l, b));
    }
  }

  /** Array.Copy of the data and then the error correction codewords of a
   *  block to the front of the buffer. */
  method LoadBlock(codewords: array<Byte>, dataPtr: int, dataCodewords: int, eccPtr: int, ecc: int, buffer: array<Byte>)
    requires 0 <= dataPtr && 0 <= dataCodewords && dataPtr + dataCodewords <= eccPtr && 0 <= ecc
    requires eccPtr + ecc <= codewords.Length && dataCodewords + ecc <= buffer.Length && codewords != buffer
    modifies buffer
    ensures buffer[..dataCodewords + ecc] ==
      codewords[dataPtr..dataPtr + dataCodewords] + codewords[eccPtr..eccPtr + ecc]
  {
    forall i | 0 <= i < dataCodewords {
      buffer[i] := codewords[dataPtr + i];
    }
    forall i | 0 <= i < ecc {
      buffer[dataCodewords + i] := codewords[eccPtr + i];
    }
  }

  /** A copy of the buffer (Clone). */
  method CloneBuffer(buffer: array<Byte>) returns (copy: array<Byte>)
    ensures fresh(copy) && copy[..] == buffer[..]
  {
    copy := new Byte[buffer.Length];
    forall i | 0 <= i < buffer.Length {
      copy[i] := buffer[i];
    }
  }

  /** The scan for a non-zero remainder codeword: the index of the first
   *  non-zero byte among the count bytes from start, or count. */
  method FirstNonZero(buffer: array<Byte>, start: int, count: int) returns (index: int)
    requires 0 <= start && 0 <= count && start + count <= buffer.Length
    ensures 0 <= index <= count
    ensures index == count <==> RS.AllZero(buffer[start..start + count])
  {
    index := 0;
    while index < count && buffer[start + index] == 0
      invariant 0 <= index <= count
      invariant RS.AllZero(buffer[start..start + index])
    {
      assert buffer[start..start + index + 1] == buffer[start..start + index] + [buffer[start + index]];
      index := index + 1;
    }
    if index < count {
      assert buffer[start..start + count][index] != 0;
    }
  }

  /** The division of the block in the buffer by the generator polynomial,
   *  and the scan of the remainder it leaves for a non-zero codeword. */
  method DivideBlock(errCorrBuff: array<Byte>, dataCodewords: int, ecc: int, generator: seq<Exponent>,
                     ghost block: seq<Byte>)
    returns (noError: bool)
    requires 0 <= dataCodewords && |generator| == ecc && |block| == dataCodewords + ecc <= errCorrBuff.Length
    requires errCorrBuff[..dataCodewords + ecc] == block
    modifies errCorrBuff
    ensures noError <==> RS.AllZero(RS.Remainder(block, generator))
  {
    var buffLen := dataCodewords + ecc;
    RS.PolynominalDivision(errCorrBuff, buffLen, generator, ecc);
    assert errCorrBuff[dataCodewords..buffLen] == RS.Remainder(block, generator);
    var index := FirstNonZero(errCorrBuff, dataCodewords, ecc);
    noError := index == ecc;
  }

  /** One block of CalculateErrorCorrection: copies the data and the error
   *  correction codewords of the block into the buffer, keeps a copy, and
   *  divides the buffer by the generator polynomial; a block that leaves a
   *  remainder is corrected in the copy by CorrectData, whose count is
   *  returned. */
  method CheckBlock(codewords: array<Byte>, dataPtr: int, dataCodewords: int, eccPtr: int, ecc: int,
                    generator: seq<Exponent>, errCorrBuff: array<Byte>, ghost block: seq<Byte>)
    returns (passed: bool, errorCount: int, corrected: array<Byte>)
    requires 0 <= dataPtr && 1 <= dataCodewords && dataPtr + dataCodewords <= eccPtr && eccPtr + ecc <= codewords.Length
    requires 7 <= ecc && |generator| == ecc && dataCodewords + ecc <= errCorrBuff.Length && dataCodewords + ecc <= 255
    requires codewords != errCorrBuff
    requires block == codewords[dataPtr..dataPtr + dataCodewords] + codewords[eccPtr..eccPtr + ecc]
    modifies errCorrBuff
    ensures passed <==> RS.AllZero(RS.Remainder(block, generator))
    ensures fresh(corrected) && corrected.Length >= dataCodewords
    ensures passed ==> errorCount == 0
    ensures !passed ==>
      var fix := RS.CorrectionOf(block, |block|, ecc);
      errorCount == fix.errors && corrected[..dataCodewords] == fix.data[..dataCodewords]
  {
    var buffLen := dataCodewords + ecc;

    // copy next block of codewords to the buffer
    LoadBlock(codewords, dataPtr, dataCodewords, eccPtr, ecc, errCorrBuff);

    // make a duplicate
    corrected := CloneBuffer(errCorrBuff);

    // error correction polynomial division and test for error
    var noError := DivideBlock(errCorrBuff, dataCodewords, ecc, generator, block);
    if !noError {
      // correct the error
      errorCount := CorrectCopy(corrected, buffLen, ecc, block);
      assert corrected[..dataCodewords] == corrected[..buffLen][..dataCodewords];
      passed := false;
    } else {
      errorCount := 0;
      passed := true;
    }
  }

  /** CorrectData on the copy of the buffer whose first buffLen codewords
   *  hold the block: the codewords after the block do not matter. */
  method CorrectCopy(corrected: array<Byte>, buffLen: int, ecc: int, ghost block: seq<Byte>) returns (errorCount: int)
    requires 1 <= buffLen <= corrected.Length && buffLen <= 255 && 2 <= ecc <= 256
    requires |block| == buffLen && corrected[..buffLen] == block
    modifies corrected
    ensures errorCount == RS.CorrectionOf(block, buffLen, ecc).errors
    ensures corrected[..buffLen] == RS.CorrectionOf(block, buffLen, ecc).data
  {
    ghost var copy := corrected[..];
    assert copy[..buffLen] == block;
    errorCount := RS.CorrectData(corrected, buffLen, ecc);
    RS.CorrectionOfPrefix(copy, buffLen, ecc);
  }

  /** Copies the corrected data codewords of a block back into place. */
  method CopyBack(codewords: array<Byte>, dataPtr: int, corrected: array<Byte>, dataCodewords: int)
    requires 0 <= dataPtr && 0 <= dataCodewords <= corrected.Length && dataPtr + dataCodewords <= codewords.Length
    requires codewords != corrected
    modifies codewords
    ensures codewords[..dataPtr] == old(codewords[..dataPtr])
    ensures codewords[dataPtr..dataPtr + dataCodewords] == corrected[..dataCodewords]
    ensures codewords[dataPtr + dataCodewords..] == old(codewords[dataPtr + dataCodewords..])
  {
    forall i | 0 <= i < dataCodewords {
      codewords[dataPtr + i] := corrected[i];
    }
  }

  /** The state of the block loop after the first n blocks, whose data ends
   *  at p: the codewords from p on are as received, every earlier block
   *  passed the check or was corrected and holds its expected data, and
   *  nothing has changed while every block passed. */
  ghost predicate BlocksDone(l: BlockLayout, cw0: seq<Byte>, verdicts: seq<bool>, fixes: seq<RS.Outcome>, cw: seq<Byte>, n: int, p: int)
    requires l.Valid() && |cw0| == |cw| == l.MaxCodewords() && |verdicts| == l.Total() && FixesShaped(l, fixes)
  {
    0 <= n <= l.Total() && 0 <= p <= |cw| && cw[p..] == cw0[p..] &&
    (forall b :: 0 <= b < n ==> Repairable(l, verdicts, fixes, b) && DataOf(l, cw, b) == Expected(l, cw0, verdicts, fixes, b)) &&
    ((forall b :: 0 <= b < n ==> verdicts[b]) ==> cw == cw0)
  }

  /** The state before the first block. */
  lemma BlocksDoneStart(l: BlockLayout, cw0: seq<Byte>, verdicts: seq<bool>, fixes: seq<RS.Outcome>)
    requires l.Valid() && |cw0| == l.MaxCodewords() && |verdicts| == l.Total() && FixesShaped(l, fixes)
    ensures BlocksDone(l, cw0, verdicts, fixes, cw0, 0, 0)
  {
    LayoutBounds(l);
  }

  /** Once every block is done, the error correction codewords are as
   *  received; while block c is being worked on, the blocks from c on still
   *  hold their received data. */
  lemma BlocksDoneFacts(l: BlockLayout, cw0: seq<Byte>, verdicts: seq<bool>, fixes: seq<RS.Outcome>, cw: seq<Byte>, n: int)
    requires l.Valid() && |cw0| == |cw| == l.MaxCodewords() && |verdicts| == l.Total() && FixesShaped(l, fixes)
    requires n >= 0 && BlocksDone(l, cw0, verdicts, fixes, cw, n, DataPointer(l, n))
    ensures cw[l.MaxData()..] == cw0[l.MaxData()..]
    ensures forall b :: n <= b < l.Total() ==> DataOf(l, cw, b) == DataOf(l, cw0, b)
  {
    PointersAtBlock(l, n);
    LayoutBounds(l);
    DataStartOfTotal(l);
    if n < l.Total() {
      DataBlocksOrdered(l, n, l.Total());
      LaterBlocksKept(l, cw0, cw, n);
    }
    SliceOfSuffix(cw, cw0, DataStart(l, n), l.MaxData(), |cw|);
  }

  /** The running pointers of the block loop before block b: past the data
   *  codewords of the earlier blocks, and past their error correction
   *  codewords, which follow all the data. */
  ghost function DataPointer(l: BlockLayout, b: nat): int
  {
    if b == 0 then 0 else DataPointer(l, b - 1) + DataLength(l, b - 1)
  }

  ghost function EccPointer(l: BlockLayout, b: nat): int
  {
    if b == 0 then l.MaxData() else EccPointer(l, b - 1) + l.ecc
  }

  /** The running pointers are where the de-interleaved layout puts the
   *  codewords of block b. */
  lemma {:induction false} PointersAtBlock(l: BlockLayout, b: nat)
    requires l.Valid() && b <= l.Total()
    ensures DataPointer(l, b) == DataStart(l, b) && EccPointer(l, b) == EccStart(l, b)
  {
    if b > 0 {
      PointersAtBlock(l, b - 1);
      DataStartStep(l, b - 1);
      EccBlockEnd(l, b - 1);
    }
  }

  /** The state of the loop counters at the head of the turn for block b:
   *  the running pointers of block b, and the number of data codewords of
   *  the previous block (group 1 up to and including block blocks1). */
  ghost predicate AtBlock(l: BlockLayout, b: int, dataPtr: int, dataCodewords: int, eccPtr: int)
  {
    0 <= b && dataPtr == DataPointer(l, b) && eccPtr == EccPointer(l, b) &&
    dataCodewords == if b <= l.blocks1 then l.data1 else l.data2
  }

  /** The switch to group 2 at block blocks1 gives the length of block b. */
  lemma SwitchGroup(l: BlockLayout, b: int, dataPtr: int, dataCodewords: int, eccPtr: int)
    requires AtBlock(l, b, dataPtr, dataCodewords, eccPtr)
    ensures (if b == l.blocks1 then l.data2 else dataCodewords) == DataLength(l, b)
  {
  }

  /** Moving past block b moves the pointers past its codewords. */
  lemma NextBlock(l: BlockLayout, b: int, dataPtr: int, dataCodewords: int, eccPtr: int, b': int, dataPtr': int, eccPtr': int)
    requires 0 <= b && dataPtr == DataPointer(l, b) && eccPtr == EccPointer(l, b)
    requires dataCodewords == DataLength(l, b)
    requires b' == b + 1 && dataPtr' == dataPtr + dataCodewords && eccPtr' == eccPtr + l.ecc
    ensures AtBlock(l, b', dataPtr', dataCodewords, eccPtr')
  {
  }

  /** While the codewords from the data of block c on are as received, the
   *  data and error correction codewords of block c in place are those
   *  received. */
  lemma BlockInPlace(l: BlockLayout, cw0: seq<Byte>, cw: seq<Byte>, c: int, dataPtr: int, eccPtr: int)
    requires l.Valid() && 0 <= c < l.Total() && |cw| == |cw0| == l.MaxCodewords()
    requires dataPtr == DataStart(l, c) && eccPtr == EccStart(l, c)
    requires 0 <= dataPtr <= |cw| && cw[dataPtr..] == cw0[dataPtr..]
    ensures dataPtr + DataLength(l, c) <= eccPtr && eccPtr + l.ecc <= |cw|
    ensures cw[dataPtr..dataPtr + DataLength(l, c)] + cw[eccPtr..eccPtr + l.ecc] == DataOf(l, cw0, c) + EccOf(l, cw0, c)
  {
    DataBlockInside(l, c);
    EccBlockEnd(l, c);
    SliceOfSuffix(cw, cw0, dataPtr, dataPtr, dataPtr + DataLength(l, c));
    SliceOfSuffix(cw, cw0, dataPtr, eccPtr, eccPtr + l.ecc);
  }

  /** Block c done: the codewords outside its data are unchanged; its data
   *  is as received when it passed the check and its correction when it was
   *  corrected. */
  lemma BlocksDoneNext(l: BlockLayout, cw0: seq<Byte>, verdicts: seq<bool>, fixes: seq<RS.Outcome>,
                       before: seq<Byte>, after: seq<Byte>, c: int, p: int, q: int, passed: bool, errorCount: int)
    requires l.Valid() && |cw0| == |before| == |after| == l.MaxCodewords() && |verdicts| == l.Total() && FixesShaped(l, fixes)
    requires 0 <= c < l.Total() && p == DataPointer(l, c) && q == p + DataLength(l, c)
    requires BlocksDone(l, cw0, verdicts, fixes, before, c, p)
    requires 0 <= p <= q <= |before| && after[..p] == before[..p] && after[q..] == before[q..]
    requires passed == verdicts[c] && (passed ==> after == before)
    requires !passed ==> errorCount == fixes[c].errors && errorCount > 0 && after[p..q] == fixes[c].data[..DataLength(l, c)]
    ensures BlocksDone(l, cw0, verdicts, fixes, after, c + 1, q)
  {
    PointersAtBlock(l, c);
    DataBlockInside(l, c);
    EarlierBlocksKept(l, before, after, c);
    assert after[q..] == cw0[q..] by {
      assert before[q..] == before[p..][q - p..];
      assert cw0[q..] == cw0[p..][q - p..];
    }
    assert DataOf(l, after, c) == Expected(l, cw0, verdicts, fixes, c) by {
      assert DataOf(l, after, c) == after[p..q];
      if passed {
        SliceOfSuffix(before, cw0, p, p, q);
      }
    }
    forall b | 0 <= b < c + 1
      ensures Repairable(l, verdicts, fixes, b) && DataOf(l, after, b) == Expected(l, cw0, verdicts, fixes, b)
    {
      if b < c {
        assert DataOf(l, after, b) == DataOf(l, before, b);
      }
    }
    if forall b :: 0 <= b < c + 1 ==> verdicts[b] {
      assert verdicts[c];
    }
  }

  /** The check of block c in place: its verdict, and the count and the
   *  corrected copy that CheckBlock returns. The codewords do not change. */
  method CheckBlockAt(l: BlockLayout, codewords: array<Byte>, c: int, dataPtr: int, dataCodewords: int, eccPtr: int,
                      generator: seq<Exponent>, errCorrBuff: array<Byte>, ghost cw0: seq<Byte>,
                      ghost verdicts: seq<bool>, ghost fixes: seq<RS.Outcome>)
    returns (passed: bool, errorCount: int, corrected: array<Byte>)
    requires BlocksFit(l) && codewords.Length == l.MaxCodewords() == |cw0| && 0 <= c < l.Total()
    requires |generator| == l.ecc && |verdicts| == l.Total() && FixesShaped(l, fixes)
    requires Planned(l, generator, cw0, verdicts, fixes, c)
    requires dataPtr == DataPointer(l, c) && dataCodewords == DataLength(l, c) && eccPtr == EccPointer(l, c)
    requires dataCodewords + l.ecc <= errCorrBuff.Length && codewords != errCorrBuff
    requires 0 <= dataPtr <= codewords.Length && codewords[dataPtr..] == cw0[dataPtr..]
    modifies errCorrBuff
    ensures passed == verdicts[c]
    ensures passed ==> errorCount == 0
    ensures fresh(corrected) && corrected.Length >= dataCodewords
    ensures !passed ==> errorCount == fixes[c].errors && corrected[..dataCodewords] == fixes[c].data[..dataCodewords]
  {
    PointersAtBlock(l, c);
    BlockInPlace(l, cw0, codewords[..], c, dataPtr, eccPtr);
    passed, errorCount, corrected :=
      CheckBlock(codewords, dataPtr, dataCodewords, eccPtr, l.ecc, generator, errCorrBuff, BlockCodewords(l, cw0, c));
    assert passed <==> BlockPasses(l, generator, cw0, c);
  }

  /** One turn of the block loop for block c: checks the block and, when it
   *  fails the check and CorrectData repairs it, replaces its data by the
   *  correction. The codewords change only in that last case, and only in
   *  the data of block c. */
  method CorrectBlock(l: BlockLayout, codewords: array<Byte>, c: int, dataPtr: int, dataCodewords: int, eccPtr: int,
                      generator: seq<Exponent>, errCorrBuff: array<Byte>, ghost cw0: seq<Byte>,
                      ghost verdicts: seq<bool>, ghost fixes: seq<RS.Outcome>)
    returns (passed: bool, errorCount: int)
    requires BlocksFit(l) && codewords.Length == l.MaxCodewords() == |cw0| && 0 <= c < l.Total()
    requires |generator| == l.ecc && |verdicts| == l.Total() && FixesShaped(l, fixes)
    requires Planned(l, generator, cw0, verdicts, fixes, c)
    requires dataPtr == DataPointer(l, c) && dataCodewords == DataLength(l, c) && eccPtr == EccPointer(l, c)
    requires dataCodewords + l.ecc <= errCorrBuff.Length && codewords != errCorrBuff
    requires BlocksDone(l, cw0, verdicts, fixes, codewords[..], c, dataPtr)
    modifies codewords, errCorrBuff
    ensures passed == verdicts[c]
    ensures passed ==> errorCount == 0
    ensures !passed ==> errorCount == fixes[c].errors
    ensures passed || errorCount <= 0 ==> codewords[..] == old(codewords[..])
    ensures passed || errorCount > 0 ==> BlocksDone(l, cw0, verdicts, fixes, codewords[..], c + 1, dataPtr + dataCodewords)
  {
    assert 0 <= dataPtr && dataPtr + dataCodewords <= codewords.Length by {
      PointersAtBlock(l, c);
      DataBlockInside(l, c);
      LayoutBounds(l);
    }
    ghost var before := codewords[..];
    var corrected;
    passed, errorCount, corrected :=
      CheckBlockAt(l, codewords, c, dataPtr, dataCodewords, eccPtr, generator, errCorrBuff, cw0, verdicts, fixes);
    assert codewords[..] == before;
    if !passed && errorCount > 0 {
      // fix the data
      CopyBack(codewords, dataPtr, corrected, dataCodewords);
    }
    if passed || errorCount > 0 {
      BlocksDoneNext(l, cw0, verdicts, fixes, before, codewords[..], c, dataPtr, dataPtr + dataCodewords, passed, errorCount);
    }
  }

  /** What the block loop leaves behind, from codewords cw0 to cw with
   *  verdict ok: the error correction codewords are as received; the
   *  verdict is success exactly when every block passes the check or is
   *  corrected, and then every block holds its expected data; on failure
   *  the loop stopped at the first block that neither passes nor is
   *  corrected, the blocks before it hold their expected data and the
   *  blocks from it on are as received; when every block passes, nothing
   *  changes. */
  ghost predicate Corrected(l: BlockLayout, cw0: seq<Byte>, verdicts: seq<bool>, fixes: seq<RS.Outcome>, cw: seq<Byte>, ok: bool)
    requires l.Valid() && |cw0| == |cw| == l.MaxCodewords() && |verdicts| == l.Total() && FixesShaped(l, fixes)
  {
    LayoutBounds(l);
    cw[l.MaxData()..] == cw0[l.MaxData()..] &&
    (ok <==> forall b :: 0 <= b < l.Total() ==> Repairable(l, verdicts, fixes, b)) &&
    (ok ==> forall b :: 0 <= b < l.Total() ==> DataOf(l, cw, b) == Expected(l, cw0, verdicts, fixes, b)) &&
    (!ok ==> exists n :: (0 <= n < l.Total() && !Repairable(l, verdicts, fixes, n) &&
                          (forall b :: 0 <= b < n ==> Repairable(l, verdicts, fixes, b) && DataOf(l, cw, b) == Expected(l, cw0, verdicts, fixes, b)) &&
                          (forall b :: n <= b < l.Total() ==> DataOf(l, cw, b) == DataOf(l, cw0, b)))) &&
    ((forall b :: 0 <= b < l.Total() ==> verdicts[b]) ==> cw == cw0)
  }

  /** The block loop stops after every block, or with failure at block n,
   *  which neither passes nor is corrected: either way it leaves what
   *  Corrected states. */
  lemma CorrectedWhenDone(l: BlockLayout, cw0: seq<Byte>, verdicts: seq<bool>, fixes: seq<RS.Outcome>, cw: seq<Byte>, n: int, ok: bool)
    requires l.Valid() && |cw0| == |cw| == l.MaxCodewords() && |verdicts| == l.Total() && FixesShaped(l, fixes)
    requires 0 <= n <= l.Total() && BlocksDone(l, cw0, verdicts, fixes, cw, n, DataPointer(l, n))
    requires n == l.Total() ==> ok
    requires n < l.Total() ==> !ok && !Repairable(l, verdicts, fixes, n)
    ensures Corrected(l, cw0, verdicts, fixes, cw, ok)
  {
    BlocksDoneFacts(l, cw0, verdicts, fixes, cw, n);
  }

  /** CalculateErrorCorrection on a block layout: the generator polynomial
   *  for the number of error correction codewords per block, and the loop
   *  over the blocks with it. */
  method CorrectBlocks(l: BlockLayout, codewords: array<Byte>) returns (ok: bool)
    requires TableShaped(l) && codewords.Length == l.MaxCodewords()
    modifies codewords
    ensures Corrected(l, old(codewords[..]), Verdicts(l, Generator(l), old(codewords[..])), Repairs(l, old(codewords[..]), l.Total()),
                      codewords[..], ok)
  {
    // set generator polynomial array
    var generator := GenArray(l.ecc - 7);
    ok := CorrectBlocksWith(l, generator, codewords);
  }

  /** The loop of CalculateErrorCorrection over the blocks of the layout,
   *  in block order, with generator polynomial gen: blocks that pass the
   *  check keep their codewords, the data of the others is replaced by its
   *  correction, and the first block that CorrectData cannot correct stops
   *  the loop with failure. The error correction codewords are never
   *  changed. */
  method CorrectBlocksWith(l: BlockLayout, generator: seq<Exponent>, codewords: array<Byte>) returns (ok: bool)
    requires BlocksFit(l) && |generator| == l.ecc && codewords.Length == l.MaxCodewords()
    modifies codewords
    ensures Corrected(l, old(codewords[..]), Verdicts(l, generator, old(codewords[..])), Repairs(l, old(codewords[..]), l.Total()),
                      codewords[..], ok)
  {
    ghost var cw0 := codewords[..];
    ghost var verdicts := Verdicts(l, generator, cw0);
    ghost var fixes := Repairs(l, cw0, l.Total());
    ok := BlockLoop(l, generator, codewords, verdicts, fixes);
    if ok {
      CorrectedWhenDone(l, cw0, verdicts, fixes, codewords[..], l.Total(), true);
    }
  }

  /** The loop over the blocks itself: with every block done on success,
   *  and with the failure Corrected states otherwise. */
  method BlockLoop(l: BlockLayout, generator: seq<Exponent>, codewords: array<Byte>,
                   ghost verdicts: seq<bool>, ghost fixes: seq<RS.Outcome>) returns (ok: bool)
    requires BlocksFit(l) && |generator| == l.ecc && codewords.Length == l.MaxCodewords()
    requires |verdicts| == l.Total() && FixesShaped(l, fixes)
    requires forall b :: 0 <= b < l.Total() ==> Planned(l, generator, codewords[..], verdicts, fixes, b)
    modifies codewords
    ensures ok ==> BlocksDone(l, old(codewords[..]), verdicts, fixes, codewords[..], l.Total(), DataPointer(l, l.Total()))
    ensures !ok ==> Corrected(l, old(codewords[..]), verdicts, fixes, codewords[..], false)
  {
    ghost var cw0 := codewords[..];
    BlocksDoneStart(l, cw0, verdicts, fixes);

    // error correction calculation buffer
    var bufSize := (if l.data1 > l.data2 then l.data1 else l.data2) + l.ecc;
    var errCorrBuff := new Byte[bufSize];

    var dataCodewords := l.data1;
    var dataCodewordsPtr := 0;
    var eccPtr := l.MaxData();
    var totalErrorCount := 0;

    // loop one block at a time
    var totalBlocks := l.blocks1 + l.blocks2;
    var blockNumber := 0;
    while blockNumber < totalBlocks
      invariant 0 <= blockNumber <= totalBlocks
      invariant AtBlock(l, blockNumber, dataCodewordsPtr, dataCodewords, eccPtr)
      invariant BlocksDone(l, cw0, verdicts, fixes, codewords[..], blockNumber, dataCodewordsPtr)
    {
      // switch to group 2 data codewords
      SwitchGroup(l, blockNumber, dataCodewordsPtr, dataCodewords, eccPtr);
      dataCodewords := if blockNumber == l.blocks1 then l.data2 else dataCodewords;
      var abort, errorCount :=
        BlockTurn(l, codewords, blockNumber, dataCodewordsPtr, dataCodewords, eccPtr, generator, errCorrBuff,
                  cw0, verdicts, fixes);
      if abort {
        return false;
      }
      totalErrorCount := totalErrorCount + errorCount;

      // next block
      ghost var b, ptr, ecp := blockNumber, dataCodewordsPtr, eccPtr;
      dataCodewordsPtr := dataCodewordsPtr + dataCodewords;
      eccPtr := eccPtr + l.ecc;
      blockNumber := blockNumber + 1;
      NextBlock(l, b, ptr, dataCodewords, ecp, blockNumber, dataCodewordsPtr, eccPtr);
    }
    return true;
  }

  /** The turn of the block loop for block c: the block is checked and
   *  corrected; abort when it neither passes nor is corrected, and then the
   *  loop ends as Corrected states with failure. */
  method BlockTurn(l: BlockLayout, codewords: array<Byte>, c: int, dataPtr: int, dataCodewords: int, eccPtr: int,
                   generator: seq<Exponent>, errCorrBuff: array<Byte>, ghost cw0: seq<Byte>,
                   ghost verdicts: seq<bool>, ghost fixes: seq<RS.Outcome>)
    returns (abort: bool, errorCount: int)
    requires BlocksFit(l) && codewords.Length == l.MaxCodewords() == |cw0| && 0 <= c < l.Total()
    requires |generator| == l.ecc && |verdicts| == l.Total() && FixesShaped(l, fixes)
    requires Planned(l, generator, cw0, verdicts, fixes, c)
    requires dataPtr == DataPointer(l, c) && dataCodewords == DataLength(l, c) && eccPtr == EccPointer(l, c)
    requires dataCodewords + l.ecc <= errCorrBuff.Length && codewords != errCorrBuff
    requires BlocksDone(l, cw0, verdicts, fixes, codewords[..], c, dataPtr)
    modifies codewords, errCorrBuff
    ensures abort ==> Corrected(l, cw0, verdicts, fixes, codewords[..], false)
    ensures !abort ==> BlocksDone(l, cw0, verdicts, fixes, codewords[..], c + 1, dataPtr + dataCodewords)
  {
    var passed;
    passed, errorCount :=
      CorrectBlock(l, codewords, c, dataPtr, dataCodewords, eccPtr, generator, errCorrBuff, cw0, verdicts, fixes);
    abort := !passed && errorCount <= 0;
    if abort {
      CorrectedWhenDone(l, cw0, verdicts, fixes, codewords[..], c, false);
    }
  }

  class QRDecoder {
    /** The image in black (true) and white, once converted. */
    var BlackWhiteImage: array2<bool>

    /** Symbol version (1 .. 40) and its width in modules, 17 + 4 * version. */
    var QRCodeVersion: int
    var QRCodeDimension: int
    /** Error correction level, QRConstants.L .. QRConstants.H. */
    var ErrorCorrection: int
    /** Data mask pattern reference, 0 .. 7. */
    var MaskCode: int

    /** Block structure of the symbol, from the block table. */
    var BlocksGroup1: int
    var DataCodewordsGroup1: int
    var BlocksGroup2: int
    var DataCodewordsGroup2: int
    var MaxDataCodewords: int
    var MaxDataBits: int
    var MaxCodewords: int
    var ErrCorrCodewords: int

    /** The module matrix of the symbol, QRCodeDimension + 5 modules wide:
     *  the function patterns and the sampled colours; and the same matrix
     *  with the data mask applied. */
    var BaseMatrix: array2<Byte>
    var MaskMatrix: array2<Byte>

    /** The codewords read from the symbol. */
    var CodewordsArray: array<Byte>

    /** The reader of the data bit stream: up to 32 bits not yet consumed,
     *  aligned to the top of BitBuffer, and the next codeword to load. */
    var BitBuffer: int
    var BitBufferLen: int
    var CodewordsPtr: int

    /** The last ECI assignment number of the data, -1 for none. */
    var ECIAssignValue: int

    /** The bit stream the reader reads, recorded when decoding starts. */
    ghost var DataBits: seq<Bit>

    constructor ()
      ensures QRCodeVersion == 0 && CodewordsArray.Length == 0
    {
      BlackWhiteImage := new bool[0, 0];
      QRCodeVersion := 0;
      QRCodeDimension := 0;
      ErrorCorrection := 0;
      MaskCode := 0;
      BlocksGroup1 := 0;
      DataCodewordsGroup1 := 0;
      BlocksGroup2 := 0;
      DataCodewordsGroup2 := 0;
      MaxDataBits := 0;
      MaxDataCodewords := 0;
      MaxCodewords := 0;
      ErrCorrCodewords := 0;
      BaseMatrix := new Byte[0, 0];
      MaskMatrix := new Byte[0, 0];
      CodewordsArray := new Byte[0];
      BitBuffer := 0;
      BitBufferLen := 0;
      CodewordsPtr := 0;
      ECIAssignValue := 0;
      DataBits := [];
    }

    /** The block structure held in the fields. */
    function Layout(): BlockLayout
      reads this
    {
      BlockLayout(BlocksGroup1, DataCodewordsGroup1, BlocksGroup2, DataCodewordsGroup2, ErrCorrCodewords)
    }

    /** The fields describe a block structure of the table, and the codeword
     *  counts agree with it. */
    ghost predicate LayoutReady()
      reads this
    {
      TableShaped(Layout()) &&
      MaxDataCodewords == Layout().MaxData() && MaxCodewords == Layout().MaxCodewords()
    }

    /** The decoder's ConvertImageToBlackAndWhite, from the pixel bytes the
     *  image lock hands over: on success BlackWhiteImage holds every pixel,
     *  black exactly when its gray level is below the cutoff; a negative
     *  stride or an image of a single gray level fails and keeps it. */
    method ConvertImageToBlackAndWhite(img: Binarizer.Image) returns (ok: bool)
      requires Binarizer.Locked(img)
      modifies this`BlackWhiteImage
      ensures ok <==> img.stride >= 0 && Binarizer.Spread(img) >= 2
      ensures !ok ==> BlackWhiteImage == old(BlackWhiteImage)
      ensures ok ==> fresh(BlackWhiteImage) && BlackWhiteImage.Length0 == img.height && BlackWhiteImage.Length1 == img.width
      ensures ok ==> forall r, c :: Binarizer.InImage(img, r, c) ==>
        BlackWhiteImage[r, c] == (Binarizer.Gray(img, r, c) < Binarizer.Cutoff(img))
    {
      var image;
      ok, image := Binarizer.ToBlackAndWhite(img);
      if ok {
        BlackWhiteImage := image;
      }
    }

    /** The decoder's BuildBaseMatrix: a fresh base matrix, QRCodeDimension +
     *  5 modules square, holding the function patterns of the version. */
    method BuildBaseMatrix()
      requires 1 <= QRCodeVersion <= 40 && QRCodeDimension == 17 + 4 * QRCodeVersion
      modifies this`BaseMatrix
      ensures fresh(BaseMatrix)
      ensures BaseMatrix.Length0 == QRCodeDimension + 5 && BaseMatrix.Length1 == QRCodeDimension + 5
      ensures forall r, c :: 0 <= r < BaseMatrix.Length0 && 0 <= c < BaseMatrix.Length1 ==>
        BaseMatrix[r, c] == Patterns.BaseModule(QRCodeVersion, r, c)
    {
      BaseMatrix := Patterns.BuildBase(QRCodeVersion);
    }

    /** The decoder's ConvertImageToMatrix, with the colours the transform
     *  samples given as the grid modules: the modules of the symbol that
     *  are not fixed take their sampled colour, and the fixed ones are
     *  checked against theirs. More wrong fixed modules than the error
     *  correction level tolerates is the source's exception, the result
     *  false here. */
    method ConvertImageToMatrix(modules: seq<seq<bool>>) returns (ok: bool)
      requires QRConstants.IsErrorTolerance(ErrorCorrection) && Sampler.Grid(modules, QRCodeDimension)
      requires BaseMatrix.Length0 == QRCodeDimension + 5 && BaseMatrix.Length1 == QRCodeDimension + 5
      modifies BaseMatrix
      ensures forall r, c :: 0 <= r < BaseMatrix.Length0 && 0 <= c < BaseMatrix.Length1 ==>
        BaseMatrix[r, c] == Sampler.SampledModule(old(BaseMatrix[r, c]), Sampler.Sample(modules, QRCodeDimension, r, c), r, c, QRCodeDimension)
      ensures ok <==> Sampler.Mismatches(old(Matrix.Cells(BaseMatrix)), modules, QRCodeDimension, QRCodeDimension)
                      <= Sampler.Budget(Sampler.FixedCount(old(Matrix.Cells(BaseMatrix)), QRCodeDimension, QRCodeDimension), ErrorCorrection)
    {
      ok := Sampler.CheckFixedModules(BaseMatrix, QRCodeDimension, modules, ErrorCorrection);
    }

    /** The end of the format search: the error correction level from the
     *  top two bits of the format index (M, L, H, Q for 00, 01, 10, 11) and
     *  the data mask pattern from its low three bits. */
    method SetFormat(formatInfo: int)
      requires 0 <= formatInfo < 32
      modifies this`ErrorCorrection, this`MaskCode
      ensures ErrorCorrection == Metadata.FormatInfoToErrCode(formatInfo / 8) && MaskCode == formatInfo % 8
      ensures QRConstants.IsErrorTolerance(ErrorCorrection) && 0 <= MaskCode < 8
      ensures (formatInfo < 8 ==> ErrorCorrection == QRConstants.M) && (8 <= formatInfo < 16 ==> ErrorCorrection == QRConstants.L) &&
              (16 <= formatInfo < 24 ==> ErrorCorrection == QRConstants.H) && (24 <= formatInfo ==> ErrorCorrection == QRConstants.Q)
    {
      // set error correction code and mask code
      ErrorCorrection := Metadata.FormatInfoToErrCode(formatInfo / 8);
      MaskCode := formatInfo % 8;
      Metadata.FormatIndexSplit(formatInfo);
    }

    /** The decoder's SetDataCodewordsLength: looks up the block structure of
     *  the version and error correction level in the block table and derives
     *  the codeword counts; the error correction codewords per block are the
     *  codewords that are not data divided evenly among the blocks. */
    method SetDataCodewordsLength()
      requires 1 <= QRCodeVersion <= 40 && QRConstants.IsErrorTolerance(ErrorCorrection)
      modifies this`BlocksGroup1, this`DataCodewordsGroup1, this`BlocksGroup2, this`DataCodewordsGroup2
      modifies this`MaxDataCodewords, this`MaxDataBits, this`MaxCodewords, this`ErrCorrCodewords
      ensures QRCodeVersion == old(QRCodeVersion) && QRCodeDimension == old(QRCodeDimension)
      ensures ErrorCorrection == old(ErrorCorrection) && MaskCode == old(MaskCode)
      ensures CodewordsArray == old(CodewordsArray)
      ensures LayoutReady()
      ensures var index := (QRCodeVersion - 1) * 4 + ErrorCorrection;
        BlocksGroup1 == ECBlockInfo(index, BLOCKS_GROUP1) &&
        DataCodewordsGroup1 == ECBlockInfo(index, DATA_CODEWORDS_GROUP1) &&
        BlocksGroup2 == ECBlockInfo(index, BLOCKS_GROUP2) &&
        DataCodewordsGroup2 == ECBlockInfo(index, DATA_CODEWORDS_GROUP2)
      ensures MaxCodewords == MaxCodewordsArray(QRCodeVersion) && MaxDataBits == 8 * MaxDataCodewords
    {
      var l := LookupLayout(QRCodeVersion, ErrorCorrection);
      BlocksGroup1 := l.blocks1;
      DataCodewordsGroup1 := l.data1;
      BlocksGroup2 := l.blocks2;
      DataCodewordsGroup2 := l.data2;
      MaxDataCodewords := l.MaxData();
      MaxDataBits := 8 * MaxDataCodewords;
      MaxCodewords := MaxCodewordsArray(QRCodeVersion);
      ErrCorrCodewords := l.ecc;
    }

    /** The decoder's ApplyMask: MaskMatrix becomes a copy of BaseMatrix
     *  with the data mask pattern mask applied, tile by tile; BaseMatrix is
     *  kept. */
    method ApplyMask(mask: int)
      requires 0 <= QRCodeDimension && BaseMatrix.Length0 == QRCodeDimension + 5 && BaseMatrix.Length1 == QRCodeDimension + 5
      modifies this`MaskMatrix
      ensures fresh(MaskMatrix)
      ensures MaskMatrix.Length0 == BaseMatrix.Length0 && MaskMatrix.Length1 == BaseMatrix.Length1
      ensures forall r, c :: 0 <= r < BaseMatrix.Length0 && 0 <= c < BaseMatrix.Length1 ==>
        MaskMatrix[r, c] == Masks.MaskedModule(mask, QRCodeDimension, BaseMatrix[r, c], r, c)
    {
      MaskMatrix := Masks.Clone(BaseMatrix);
      if Masks.IsMask(mask) {
        Masks.ApplyTiles(MaskMatrix, mask, QRCodeDimension);
      }
    }

    /** The decoder's UnloadDataFromMatrix: the MaxCodewords codewords of
     *  the symbol, read from the data modules of MaskMatrix in the order of
     *  the placement walk, the first bit of each the most significant. The
     *  index out of range of a walk that leaves the symbol is the result
     *  false. */
    method UnloadDataFromMatrix() returns (ok: bool)
      requires 1 <= QRCodeDimension && 1 <= MaxCodewords
      requires MaskMatrix.Length0 == QRCodeDimension + 5 && MaskMatrix.Length1 == QRCodeDimension + 5
      modifies this`CodewordsArray
      ensures fresh(CodewordsArray) && CodewordsArray.Length == MaxCodewords
      ensures var walk := Placement.Walk(Matrix.Cells(MaskMatrix), QRCodeDimension, Placement.Start(QRCodeDimension), 8 * MaxCodewords);
        (ok <==> walk.Some?) && (ok ==> CodewordStream(CodewordsArray[..]) == walk.value)
    {
      ok, CodewordsArray := Placement.Unload(MaskMatrix, QRCodeDimension, MaxCodewords);
    }

    /** The decoder's RestoreBlocks: undoes the interleaving. Every data
     *  codeword and every error correction codeword of every block is taken
     *  from its round-robin position in the symbol, and the blocks are laid
     *  out one after the other, data first. */
    method RestoreBlocks()
      requires LayoutReady() && CodewordsArray.Length == MaxCodewords
      modifies this`CodewordsArray
      ensures LayoutReady() && Layout() == old(Layout())
      ensures Restored(Layout(), CodewordsArray[..], old(CodewordsArray[..]))
      ensures QRCodeVersion == old(QRCodeVersion) && QRCodeDimension == old(QRCodeDimension)
      ensures ErrorCorrection == old(ErrorCorrection) && MaskCode == old(MaskCode)
      ensures MaxDataBits == old(MaxDataBits)
      ensures fresh(CodewordsArray)
    {
      var l := Layout();
      var tempArray := new Byte[MaxCodewords];
      var totalBlocks := BlocksGroup1 + BlocksGroup2;

      // data blocks starting points
      var start := new int[totalBlocks];
      DataBlockStarts(l, start);

      // round-robin over the length of group one, then the extra codeword of
      // the group two blocks
      var codewords := CodewordsArray[..];
      var ptr := DataRounds(l, codewords, tempArray, start);
      DataRoundsToExtra(l, tempArray[..], codewords);
      if DataCodewordsGroup2 > DataCodewordsGroup1 {
        ptr := ExtraDataRound(l, codewords, tempArray, start, ptr);
      } else {
        DataStartOfTotal(l);
      }

      // error correction blocks starting points and round-robin
      EccBlockStarts(l, start);
      EccRounds(l, codewords, tempArray, start, ptr);
      CodewordsArray := tempArray;
    }

    /** The decoder's CalculateErrorCorrection: checks every block of the
     *  de-interleaved codewords and corrects the data of those that fail.
     *  The exception for a block beyond repair is the result false. */
    method CalculateErrorCorrection() returns (ok: bool)
      requires LayoutReady() && CodewordsArray.Length == MaxCodewords
      modifies CodewordsArray
      ensures var cw0 := old(CodewordsArray[..]);
        Corrected(Layout(), cw0, Verdicts(Layout(), Generator(Layout()), cw0), Repairs(Layout(), cw0, Layout().Total()), CodewordsArray[..], ok)
    {
      ok := CorrectBlocks(Layout(), CodewordsArray);
    }
  

    // ----- The data bit stream -----

    /** The bit stream of the data codewords. */
    ghost function Stream(): seq<Bit>
      reads this`CodewordsArray, this`MaxDataCodewords, CodewordsArray
      requires 0 <= MaxDataCodewords <= CodewordsArray.Length
    {
      CodewordStream(CodewordsArray[..MaxDataCodewords])
    }

    /** The position in the stream of the first bit not yet consumed. */
    ghost function BitPos(): int
      reads this`CodewordsPtr, this`BitBufferLen
    {
      8 * CodewordsPtr - BitBufferLen
    }

    /** DataBits is the bit stream of the data codewords: the eight bits from
     *  8 * i are codeword i. */
    ghost predicate StreamLoaded()
      reads this`DataBits, this`MaxDataCodewords, this`CodewordsArray, CodewordsArray
    {
      0 <= MaxDataCodewords <= CodewordsArray.Length && |DataBits| == 8 * MaxDataCodewords &&
      forall i :: 0 <= i < MaxDataCodewords ==> StreamCodeword(DataBits, i) == CodewordsArray[i]
    }

    /** The buffer holds the BitBufferLen bits of the stream that follow the
     *  consumed ones, those of every codeword before CodewordsPtr. */
    ghost predicate Buffered()
      reads this`BitBuffer, this`BitBufferLen, this`CodewordsPtr, this`DataBits, this`MaxDataCodewords
    {
      |DataBits| == 8 * MaxDataCodewords &&
      0 <= BitBufferLen <= 32 && BitBufferLen <= 8 * CodewordsPtr && CodewordsPtr <= MaxDataCodewords &&
      BitBuffer == Window(DataBits, BitPos(), BitBufferLen)
    }

    /** Between reads the buffer also holds at least 25 bits unless the
     *  codewords are exhausted. */
    ghost predicate ReaderValid()
      reads this`BitBuffer, this`BitBufferLen, this`CodewordsPtr, this`DataBits, this`MaxDataCodewords
    {
      Buffered() && (24 < BitBufferLen || CodewordsPtr == MaxDataCodewords)
    }

    /** The decoder's ReadBitsFromCodewordsArray: the next `bits` bits of the
     *  stream as a number, or -1, consuming nothing, when fewer remain. The
     *  bits are taken from the top of the buffer, which is then refilled a
     *  codeword at a time while it has room for one. */
    method ReadBitsFromCodewordsArray(bits: int) returns (data: int)
      requires StreamLoaded() && ReaderValid() && 1 <= bits <= 25
      modifies this`BitBuffer, this`BitBufferLen, this`CodewordsPtr
      ensures ReaderValid()
      ensures data == Read(DataBits, old(BitPos()), bits)
      ensures BitPos() == Next(DataBits, old(BitPos()), bits)
    {
      if bits > BitBufferLen {
        return -1;
      }
      data := TakeBits(bits);
      Refill();
    }

    /** The top `bits` bits of the buffer are taken: shifted out of it, and
     *  returned. */
    method TakeBits(bits: int) returns (data: int)
      requires Buffered() && 1 <= bits <= BitBufferLen
      modifies this`BitBuffer, this`BitBufferLen
      ensures Buffered() && data == Bits(DataBits, old(BitPos()), bits) && BitPos() == old(BitPos()) + bits
    {
      ghost var pos := BitPos();
      var buffer, len := BitBuffer, BitBufferLen;
      TakeFromWindow(DataBits, pos, len, bits, buffer);
      data := Shr(buffer, 32 - bits);
      var shifted := Shl(buffer, bits) % Pow2(32);
      BitBuffer, BitBufferLen := shifted, len - bits;
      assert BitPos() == pos + bits;
    }

    /** The buffer is refilled a codeword at a time while it has room for one
     *  and codewords remain. */
    method Refill()
      requires StreamLoaded() && Buffered()
      modifies this`BitBuffer, this`BitBufferLen, this`CodewordsPtr
      ensures ReaderValid() && BitPos() == old(BitPos())
    {
      while BitBufferLen <= 24 && CodewordsPtr < MaxDataCodewords
        invariant Buffered() && BitPos() == old(BitPos())
        decreases MaxDataCodewords - CodewordsPtr
      {
        LoadCodeword();
      }
    }

    /** One refill of the reader: codeword CodewordsPtr, shifted to just below
     *  the bits in the buffer, is or-ed into it. */
    method LoadCodeword()
      requires StreamLoaded() && Buffered() && BitBufferLen <= 24 && CodewordsPtr < MaxDataCodewords
      modifies this`BitBuffer, this`BitBufferLen, this`CodewordsPtr
      ensures Buffered() && BitPos() == old(BitPos()) && CodewordsPtr == old(CodewordsPtr) + 1
    {
      assert StreamCodeword(DataBits, CodewordsPtr) == CodewordsArray[CodewordsPtr];
      OrIntoWindow(DataBits, BitPos(), BitBufferLen, CodewordsArray[CodewordsPtr], 24 - BitBufferLen);
      BitBuffer := OrBits(BitBuffer, Shl(CodewordsArray[CodewordsPtr], 24 - BitBufferLen), 32);
      CodewordsPtr := CodewordsPtr + 1;
      BitBufferLen := BitBufferLen + 8;
    }

    // ----- Decoding the data bit stream -----

    /** The decoder's DecodeData: the payload of the data codewords, segment
     *  by segment, with the ECI assignment number left in ECIAssignValue.
     *  Each exception of the source is the result false. */
    method DecodeData() returns (ok: bool, data: seq<Byte>)
      requires 4 <= MaxDataCodewords <= CodewordsArray.Length
      modifies this`BitBuffer, this`BitBufferLen, this`CodewordsPtr, this`ECIAssignValue, this`DataBits
      ensures ok <==> Decode(Stream(), QRCodeVersion).Some?
      ensures ok ==> data == Decode(Stream(), QRCodeVersion).value.data
      ensures ok ==> ECIAssignValue == Decode(Stream(), QRCodeVersion).value.eci
    {
      LoadStream();
      var dataSeg: seq<Byte> := [];
      ECIAssignValue := -1;
      while true
        invariant ReaderValid()
        invariant DecodeFrom(DataBits, QRCodeVersion, BitPos(), dataSeg, ECIAssignValue) == Decode(DataBits, QRCodeVersion)
        decreases |DataBits| - BitPos()
        modifies this`BitBuffer, this`BitBufferLen, this`CodewordsPtr, this`ECIAssignValue
      {
        var encodingMode := ReadBitsFromCodewordsArray(4);
        if encodingMode <= 0 {
          return true, dataSeg;
        }
        if encodingMode == QRConstants.ECI {
          ok := ReadEciAssignment();
          if !ok {
            return false, [];
          }
        } else {
          ok, dataSeg := DecodeSegment(encodingMode, dataSeg);
          if !ok {
            return false, [];
          }
        }
      }
    }

    /** The start of DecodeData: the stream of the data codewords recorded in
     *  DataBits, and the first four codewords in the buffer. */
    method LoadStream()
      requires 4 <= MaxDataCodewords <= CodewordsArray.Length
      modifies this`BitBuffer, this`BitBufferLen, this`CodewordsPtr, this`DataBits
      ensures StreamLoaded() && ReaderValid() && DataBits == Stream() && BitPos() == 0
    {
      ghost var s := CodewordsArray[..MaxDataCodewords];
      DataBits := CodewordStream(s);
      forall i | 0 <= i < MaxDataCodewords
        ensures StreamCodeword(DataBits, i) == CodewordsArray[i]
      {
        CodewordBits(s, i, 8 * i);
      }
      FirstCodewords(s);
      assert s[0] == CodewordsArray[0] && s[1] == CodewordsArray[1] && s[2] == CodewordsArray[2] && s[3] == CodewordsArray[3];
      BitBuffer := OrBits(OrBits(OrBits(Shl(CodewordsArray[0], 24), Shl(CodewordsArray[1], 16), 32),
        Shl(CodewordsArray[2], 8), 32), CodewordsArray[3], 32);
      BitBufferLen := 32;
      CodewordsPtr := 4;
    }

    /** The ECI assignment number after an ECI mode indicator, assembled in
     *  ECIAssignValue a byte at a time while its bit tests ask for another. */
    method ReadEciAssignment() returns (ok: bool)
      requires StreamLoaded() && ReaderValid()
      modifies this`BitBuffer, this`BitBufferLen, this`CodewordsPtr, this`ECIAssignValue
      ensures ReaderValid()
      ensures ok <==> EciAssignment(DataBits, old(BitPos())).Some?
      ensures ok ==> ECIAssignValue == EciAssignment(DataBits, old(BitPos())).value.value
      ensures ok ==> BitPos() == EciAssignment(DataBits, old(BitPos())).value.pos
    {
      // A read past the end is -1, whose bits are all set: in the source
      // every later test then asks for one more byte, and the last throws.
      ECIAssignValue := ReadBitsFromCodewordsArray(8);
      if ECIAssignValue < 0 {
        return false;
      }
      if ECIAssignValue / 0x80 % 2 == 0 {
        return true;
      }
      ok := ReadEciSecondByte();
    }

    /** The second byte of the ECI assignment number, appended to
     *  ECIAssignValue; the number is kept to 14 bits when bit 14 is clear. */
    method ReadEciSecondByte() returns (ok: bool)
      requires StreamLoaded() && ReaderValid()
      modifies this`BitBuffer, this`BitBufferLen, this`CodewordsPtr, this`ECIAssignValue
      ensures ReaderValid()
      ensures ok <==> EciSecondByte(DataBits, old(BitPos()), old(ECIAssignValue)).Some?
      ensures ok ==> ECIAssignValue == EciSecondByte(DataBits, old(BitPos()), old(ECIAssignValue)).value.value
      ensures ok ==> BitPos() == EciSecondByte(DataBits, old(BitPos()), old(ECIAssignValue)).value.pos
    {
      var c := ReadBitsFromCodewordsArray(8);
      if c < 0 {
        return false;
      }
      ECIAssignValue := ECIAssignValue * 0x100 + c;
      if ECIAssignValue / 0x4000 % 2 == 0 {
        ECIAssignValue := ECIAssignValue % 0x4000;
        return true;
      }
      ok := ReadEciThirdByte();
    }

    /** The third byte of the ECI assignment number, appended to
     *  ECIAssignValue; the number is kept to 21 bits when bit 21 is clear,
     *  and is an error otherwise. */
    method ReadEciThirdByte() returns (ok: bool)
      requires StreamLoaded() && ReaderValid()
      modifies this`BitBuffer, this`BitBufferLen, this`CodewordsPtr, this`ECIAssignValue
      ensures ReaderValid()
      ensures ok <==> EciThirdByte(DataBits, old(BitPos()), old(ECIAssignValue)).Some?
      ensures ok ==> ECIAssignValue == EciThirdByte(DataBits, old(BitPos()), old(ECIAssignValue)).value.value
      ensures ok ==> BitPos() == EciThirdByte(DataBits, old(BitPos()), old(ECIAssignValue)).value.pos
    {
      var d := ReadBitsFromCodewordsArray(8);
      if d < 0 {
        return false;
      }
      ECIAssignValue := ECIAssignValue * 0x100 + d;
      if ECIAssignValue / 0x200000 % 2 == 0 {
        ECIAssignValue := ECIAssignValue % 0x200000;
        return true;
      }
      return false;
    }

    /** A segment of the mode just read: its count field, then its characters
     *  appended to acc. */
    method DecodeSegment(encodingMode: int, acc: seq<Byte>) returns (ok: bool, dataSeg: seq<Byte>)
      requires StreamLoaded() && ReaderValid()
      modifies this`BitBuffer, this`BitBufferLen, this`CodewordsPtr
      ensures ReaderValid()
      ensures Yields(ok, dataSeg, BitPos(), SegmentAt(DataBits, QRCodeVersion, encodingMode, old(BitPos()), acc))
    {
      ghost var start: nat := BitPos();
      ok, dataSeg := false, acc;
      var width, dataLength := ReadCountField(encodingMode);
      if width.None? || dataLength < 0 {
        SegmentAtNone(DataBits, QRCodeVersion, encodingMode, start, acc, width, dataLength);
      } else {
        ghost var mid: nat := BitPos();
        var segStart := |acc|;
        ok, dataSeg := DecodeCharacters(encodingMode, dataLength, acc);
        SegmentAtYields(DataBits, QRCodeVersion, encodingMode, start, acc, width.value, dataLength,
                        mid, ok, dataSeg, BitPos());
        if ok {
          // The source's final check that the segment has dataLength
          // characters never fails.
          assert dataLength == |dataSeg| - segStart;
        }
      }
    }

    /** The character count field of a mode: its width for the symbol's
     *  version (None for a mode without one) and its value, -1 when the
     *  stream ends before it. */
    method ReadCountField(encodingMode: int) returns (width: Option<nat>, dataLength: int)
      requires StreamLoaded() && ReaderValid()
      modifies this`BitBuffer, this`BitBufferLen, this`CodewordsPtr
      ensures ReaderValid()
      ensures width == DataLengthBits(encodingMode, QRCodeVersion)
      ensures width.Some? ==> encodingMode == QRConstants.Numeric || encodingMode == QRConstants.AlphaNumeric || encodingMode == QRConstants.Byte
      ensures width.Some? ==> dataLength == Read(DataBits, old(BitPos()), width.value)
      ensures width.Some? ==> BitPos() == Next(DataBits, old(BitPos()), width.value)
    {
      width := DataLengthBits(encodingMode, QRCodeVersion);
      if width.None? {
        return width, -1;
      }
      DataLengthBitsShape(encodingMode, QRCodeVersion, QRCodeVersion);
      dataLength := ReadBitsFromCodewordsArray(width.value);
    }

    /** The characters of a segment of n characters of a mode that has a
     *  count field, appended to acc. */
    method DecodeCharacters(encodingMode: int, n: int, acc: seq<Byte>) returns (ok: bool, dataSeg: seq<Byte>)
      requires StreamLoaded() && ReaderValid() && 0 <= n
      requires encodingMode == QRConstants.Numeric || encodingMode == QRConstants.AlphaNumeric || encodingMode == QRConstants.Byte
      modifies this`BitBuffer, this`BitBufferLen, this`CodewordsPtr
      ensures ReaderValid()
      ensures Yields(ok, dataSeg, BitPos(), Segment(DataBits, encodingMode, old(BitPos()), n, acc))
    {
      if encodingMode == QRConstants.Numeric {
        ok, dataSeg := DecodeNumeric(n, acc);
      } else if encodingMode == QRConstants.AlphaNumeric {
        ok, dataSeg := DecodeAlphaNumeric(n, acc);
      } else {
        ok, dataSeg := DecodeBytes(n, acc);
      }
    }

    /** The characters of a numeric segment of n digits: groups of three
     *  digits in 10 bits, then one digit in 4 bits or two in 7. */
    method DecodeNumeric(n: int, acc: seq<Byte>) returns (ok: bool, dataSeg: seq<Byte>)
      requires StreamLoaded() && ReaderValid() && 0 <= n
      modifies this`BitBuffer, this`BitBufferLen, this`CodewordsPtr
      ensures ReaderValid()
      ensures ok <==> NumericSegment(DataBits, old(BitPos()), n, acc).Some?
      ensures ok ==> dataSeg == NumericSegment(DataBits, old(BitPos()), n, acc).value.data
      ensures ok ==> BitPos() == NumericSegment(DataBits, old(BitPos()), n, acc).value.pos
    {
      Pow2Widths();
      ghost var start := BitPos();
      dataSeg := acc;
      var numericEnd := n / 3 * 3;
      var index := 0;
      ghost var done := 0;
      while index < numericEnd
        invariant ReaderValid() && 0 <= done <= n / 3 && index == 3 * done
        invariant NumericGroups(DataBits, BitPos(), n / 3 - done, dataSeg) == NumericGroups(DataBits, start, n / 3, acc)
        decreases numericEnd - index
      {
        var temp := ReadBitsFromCodewordsArray(10);
        if temp < 0 {
          return false, dataSeg;
        }
        dataSeg := dataSeg + [DecodingTable(temp / 100), DecodingTable(temp % 100 / 10), DecodingTable(temp % 10)];
        index := index + 3;
        done := done + 1;
      }
      if n - numericEnd == 1 {
        var temp := ReadBitsFromCodewordsArray(4);
        if temp < 0 {
          return false, dataSeg;
        }
        dataSeg := dataSeg + [DecodingTable(temp)];
      } else if n - numericEnd == 2 {
        var temp := ReadBitsFromCodewordsArray(7);
        if temp < 0 {
          return false, dataSeg;
        }
        dataSeg := dataSeg + [DecodingTable(temp / 10), DecodingTable(temp % 10)];
      }
      return true, dataSeg;
    }

    /** The characters of an alphanumeric segment of n characters: pairs in
     *  11 bits, then one character in 6 bits. A value past the end of the
     *  character table is the source's index exception. */
    method DecodeAlphaNumeric(n: int, acc: seq<Byte>) returns (ok: bool, dataSeg: seq<Byte>)
      requires StreamLoaded() && ReaderValid() && 0 <= n
      modifies this`BitBuffer, this`BitBufferLen, this`CodewordsPtr
      ensures ReaderValid()
      ensures ok <==> AlnumSegment(DataBits, old(BitPos()), n, acc).Some?
      ensures ok ==> dataSeg == AlnumSegment(DataBits, old(BitPos()), n, acc).value.data
      ensures ok ==> BitPos() == AlnumSegment(DataBits, old(BitPos()), n, acc).value.pos
    {
      ghost var start := BitPos();
      dataSeg := acc;
      var alphaNumEnd := n / 2 * 2;
      var index := 0;
      ghost var done := 0;
      while index < alphaNumEnd
        invariant ReaderValid() && 0 <= done <= n / 2 && index == 2 * done
        invariant AlnumPairs(DataBits, BitPos(), n / 2 - done, dataSeg) == AlnumPairs(DataBits, start, n / 2, acc)
        decreases alphaNumEnd - index
      {
        var temp := ReadBitsFromCodewordsArray(11);
        if temp < 0 || temp / 45 >= 45 {
          return false, dataSeg;
        }
        dataSeg := dataSeg + [DecodingTable(temp / 45), DecodingTable(temp % 45)];
        index := index + 2;
        done := done + 1;
      }
      if n - alphaNumEnd == 1 {
        var temp := ReadBitsFromCodewordsArray(6);
        if temp < 0 || temp >= 45 {
          return false, dataSeg;
        }
        dataSeg := dataSeg + [DecodingTable(temp)];
      }
      return true, dataSeg;
    }

    /** The characters of a byte segment of n bytes, 8 bits each. */
    method DecodeBytes(n: int, acc: seq<Byte>) returns (ok: bool, dataSeg: seq<Byte>)
      requires StreamLoaded() && ReaderValid() && 0 <= n
      modifies this`BitBuffer, this`BitBufferLen, this`CodewordsPtr
      ensures ReaderValid()
      ensures ok <==> ByteRun(DataBits, old(BitPos()), n, acc).Some?
      ensures ok ==> dataSeg == ByteRun(DataBits, old(BitPos()), n, acc).value.data
      ensures ok ==> BitPos() == ByteRun(DataBits, old(BitPos()), n, acc).value.pos
    {
      Pow2Widths();
      ghost var start := BitPos();
      dataSeg := acc;
      var index := 0;
      while index < n
        invariant ReaderValid() && 0 <= index <= n
        invariant ByteRun(DataBits, BitPos(), n - index, dataSeg) == ByteRun(DataBits, start, n, acc)
      {
        var temp := ReadBitsFromCodewordsArray(8);
        if temp < 0 {
          return false, dataSeg;
        }
        dataSeg := dataSeg + [temp];
        index := index + 1;
      }
      return true, dataSeg;
    }
  }
}
