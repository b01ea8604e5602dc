/** The de-interleaving loops of the decoder's RestoreBlocks, each proved to
 *  place the codewords where the layout functions of Interleave say. */
module Restore {
  import opened Bytes
  import opened Arith
  import opened Interleave

  /** Starting point of the data of every block: each block starts where the
   *  previous one ends. */
  method DataBlockStarts(l: BlockLayout, start: array<int>)
    requires l.Valid() && start.Length == l.Total()
    modifies start
    ensures forall b :: 0 <= b < l.Total() ==> start[b] == DataStart(l, b)
  {
    start[0] := 0;
    var index := 1;
    while index < start.Length
      invariant 1 <= index <= start.Length
      invariant forall b :: 0 <= b < index ==> start[b] == DataStart(l, b)
    {
      DataStartStep(l, index - 1);
      start[index] := start[index - 1] + (if index <= l.blocks1 then l.data1 else l.data2);
      index := index + 1;
    }
  }

  /** Starting point of the error correction codewords of every block. */
  method EccBlockStarts(l: BlockLayout, start: array<int>)
    requires l.Valid() && start.Length == l.Total()
    modifies start
    ensures forall b :: 0 <= b < l.Total() ==> start[b] == EccStart(l, b)
  {
    start[0] := l.MaxData();
    var index := 1;
    while index < start.Length
      invariant 1 <= index <= start.Length
      invariant forall b :: 0 <= b < index ==> start[b] == EccStart(l, b)
    {
      start[index] := start[index - 1] + l.ecc;
      index := index + 1;
    }
  }

  /** The first data1 rounds of the data round-robin: symbol codeword ptr
   *  goes to the next free place of block ptr % Total. */
  method DataRounds(l: BlockLayout, cw: seq<Byte>, temp: array<Byte>, start: array<int>) returns (ptr: int)
    requires l.Valid() && |cw| == temp.Length == l.MaxCodewords()
    requires start.Length == l.Total() && forall b :: 0 <= b < l.Total() ==> start[b] == DataStart(l, b)
    modifies temp, start
    ensures ptr == l.data1 * l.Total()
    ensures forall b :: 0 <= b < l.Total() ==> start[b] == DataStart(l, b) + l.data1
    ensures DataRoundsDone(l, temp[..], cw, l.data1, 0)
  {
    var totalBlocks := l.Total();
    var ptrEnd := l.data1 * totalBlocks;
    LayoutBounds(l);
    ptr := 0;
    var block := 0;
    ghost var round := 0;
    while ptr < ptrEnd
      invariant 0 <= block < totalBlocks && 0 <= round <= l.data1
      invariant 0 <= ptr == round * totalBlocks + block
      invariant round == l.data1 ==> block == 0
      invariant forall b :: 0 <= b < totalBlocks ==>
        start[b] == DataStart(l, b) + RoundProgress(b, round, block)
      invariant DataRoundsDone(l, temp[..], cw, round, block)
    {
      assert round < l.data1;
      DataBlockInside(l, block);
      var x := start[block];
      assert x == DataStart(l, block) + round && DataSource(l, block, round) == ptr;
      ghost var before := temp[..];
      temp[x] := cw[ptr];
      assert temp[..] == before[x := cw[ptr]];
      ghost var round' := if block + 1 == totalBlocks then round + 1 else round;
      ghost var block' := if block + 1 == totalBlocks then 0 else block + 1;
      DataRoundStep(l, before, cw, round, block, x, round', block');
      start[block] := start[block] + 1;
      block := block + 1;
      if block == totalBlocks {
        MulSucc(round, totalBlocks);
        block := 0;
        round := round + 1;
      }
      ptr := ptr + 1;
    }
    if round < l.data1 {
      MulSucc(round, totalBlocks);
      MulMonotone(round + 1, l.data1, totalBlocks);
    }
    assert round == l.data1 && block == 0;
    forall b | 0 <= b < totalBlocks
      ensures start[b] == DataStart(l, b) + l.data1
    {
      assert RoundProgress(b, round, block) == l.data1;
    }
  }

  /** The extra data codeword of every group two block, in block order. */
  method ExtraDataRound(l: BlockLayout, cw: seq<Byte>, temp: array<Byte>, start: array<int>, ptr0: int)
    returns (ptr: int)
    requires l.Valid() && |cw| == temp.Length == l.MaxCodewords()
    requires l.data2 > l.data1 && ptr0 == l.data1 * l.Total()
    requires start.Length == l.Total()
    requires forall b :: 0 <= b < l.Total() ==> start[b] == DataStart(l, b) + l.data1
    requires ExtraDone(l, temp[..], cw, 0)
    modifies temp, start
    ensures ptr == l.MaxData()
    ensures DataDone(l, temp[..], cw)
  {
    var totalBlocks := l.Total();
    DataStartOfTotal(l);
    LayoutBounds(l);
    var ptrEnd := l.MaxData();
    ptr := ptr0;
    var block := l.blocks1;
    ghost var filled := 0;
    while ptr < ptrEnd
      invariant 0 <= filled <= l.blocks2
      invariant ptr == ptr0 + filled
      invariant block == l.blocks1 + filled || (filled == l.blocks2 && block == l.blocks1)
      invariant forall b :: 0 <= b < totalBlocks ==>
        start[b] == DataStart(l, b) + ExtraProgress(l, b, filled)
      invariant ExtraDone(l, temp[..], cw, filled)
    {
      DataBlockInside(l, block);
      var x := start[block];
      assert x == DataStart(l, block) + l.data1 && DataSource(l, block, l.data1) == ptr;
      ghost var before := temp[..];
      temp[x] := cw[ptr];
      assert temp[..] == before[x := cw[ptr]];
      ExtraRoundStep(l, before, cw, filled, x, filled + 1);
      start[block] := start[block] + 1;
      block := block + 1;
      if block == totalBlocks {
        block := l.blocks1;
      }
      ptr := ptr + 1;
      filled := filled + 1;
    }
    ExtraToDataDone(l, temp[..], cw);
  }

  /** The error correction round-robin: symbol codeword MaxData + k * Total + b
   *  goes to place k of block b. */
  method EccRounds(l: BlockLayout, cw: seq<Byte>, temp: array<Byte>, start: array<int>, ptr0: int)
    requires l.Valid() && |cw| == temp.Length == l.MaxCodewords()
    requires ptr0 == l.MaxData() && start.Length == l.Total()
    requires forall b :: 0 <= b < l.Total() ==> start[b] == EccStart(l, b)
    requires DataDone(l, temp[..], cw)
    modifies temp, start
    ensures Restored(l, temp[..], cw)
  {
    var totalBlocks := l.Total();
    var ptr := ptr0;
    var ptrEnd := l.MaxCodewords();
    var block := 0;
    ghost var round := 0;
    SeparateDataFromEcc(l);
    LayoutBounds(l);
    ghost var out := temp[..];
    while ptr < ptrEnd
      invariant 0 <= block < totalBlocks && 0 <= round <= l.ecc
      invariant ptr0 <= ptr == ptr0 + round * totalBlocks + block
      invariant round == l.ecc ==> block == 0
      invariant forall b :: 0 <= b < totalBlocks ==>
        start[b] == EccStart(l, b) + RoundProgress(b, round, block)
      invariant temp[..] == out && |out| == |cw|
      invariant DataDone(l, out, cw) && EccRoundsDone(l, out, cw, round, block)
    {
      assert round < l.ecc;
      EccBlockInside(l, block, round);
      var x := start[block];
      assert x == EccStart(l, block) + round && EccSource(l, block, round) == ptr;
      ghost var round' := if block + 1 == totalBlocks then round + 1 else round;
      ghost var block' := if block + 1 == totalBlocks then 0 else block + 1;
      EccRoundStep(l, out, cw, round, block, x, round', block');
      temp[x] := cw[ptr];
      out := out[x := cw[ptr]];
      start[block] := start[block] + 1;
      block := block + 1;
      if block == totalBlocks {
        MulSucc(round, totalBlocks);
        block := 0;
        round := round + 1;
      }
      ptr := ptr + 1;
    }
    if round < l.ecc {
      MulSucc(round, totalBlocks);
      MulMonotone(round + 1, l.ecc, totalBlocks);
    }
    assert round == l.ecc && block == 0;
    RoundsToRestored(l, temp[..], cw);
  }
}
