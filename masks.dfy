// Data masking (ISO/IEC 18004:2015 section 7.8.2). The decoder's
// ApplyMask0 .. ApplyMask7 each walk the matrix in tiles of a fixed size,
// from the top left corner, and invert the data modules of a fixed set of
// cells of every tile; the set is the mask condition of Table 10 on one
// period of the pattern.
module Masks {
  import opened Bytes
  import opened Matrix
  import opened Arith

  /** A data mask pattern reference. */
  predicate IsMask(mask: int)
  {
    0 <= mask < 8
  }

  /** The height of the tiles of a mask. */
  function RowPeriod(mask: int): (p: int)
    requires IsMask(mask)
    ensures 1 <= p <= 6
  {
    match mask
    case 0 => 2
    case 1 => 2
    case 2 => 1
    case 3 => 3
    case 4 => 4
    case _ => 6
  }

  /** The width of the tiles of a mask. */
  function ColPeriod(mask: int): (p: int)
    requires IsMask(mask)
    ensures 1 <= p <= 6
  {
    match mask
    case 0 => 2
    case 1 => 1
    case 2 => 3
    case 3 => 3
    case 4 => 6
    case _ => 6
  }

  /** The cells (dr, dc) of a tile, counted from its top left module, that
   *  the mask inverts. */
  predicate Tile(mask: int, dr: int, dc: int)
    requires IsMask(mask)
  {
    match mask
    case 0 => (dr == 0 && dc == 0) || (dr == 1 && dc == 1)
    case 1 => dr == 0 && dc == 0
    case 2 => dr == 0 && dc == 0
    case 3 => (dr == 0 && dc == 0) || (dr == 1 && dc == 2) || (dr == 2 && dc == 1)
    case 4 => (dr <= 1 && dc <= 2) || (2 <= dr && 3 <= dc)
    case 5 =>
      dr == 0 || dc == 0 ||
      (dr == 2 && dc == 3) || (dr == 3 && dc == 2) || (dr == 3 && dc == 4) || (dr == 4 && dc == 3)
    case 6 =>
      dr == 0 || dc == 0 ||
      (dr == 1 && (dc == 1 || dc == 2)) || (dr == 2 && (dc == 1 || dc == 3 || dc == 4)) ||
      (dr == 3 && (dc == 2 || dc == 4)) || (dr == 4 && (dc == 2 || dc == 3 || dc == 5)) ||
      (dr == 5 && (dc == 4 || dc == 5))
    case 7 =>
      (dr == 0 && (dc == 0 || dc == 2 || dc == 4)) || (dr == 1 && (dc == 3 || dc == 4 || dc == 5)) ||
      (dr == 2 && (dc == 0 || dc == 4 || dc == 5)) || (dr == 3 && (dc == 1 || dc == 3 || dc == 5)) ||
      (dr == 4 && (dc == 0 || dc == 1 || dc == 2)) || (dr == 5 && (dc == 1 || dc == 2 || dc == 3))
  }

  /** The data mask condition of Table 10 for the module in row i, column j. */
  predicate MaskCondition(mask: int, i: nat, j: nat)
    requires IsMask(mask)
  {
    match mask
    case 0 => (i + j) % 2 == 0
    case 1 => i % 2 == 0
    case 2 => j % 3 == 0
    case 3 => (i + j) % 3 == 0
    case 4 => (i / 2 + j / 3) % 2 == 0
    case 5 => (i * j) % 2 + (i * j) % 3 == 0
    case 6 => ((i * j) % 2 + (i * j) % 3) % 2 == 0
    case 7 => ((i + j) % 2 + (i * j) % 3) % 2 == 0
  }

  /** The module v after masking, when the mask inverts its cell: a data
   *  module is inverted, any other is kept. */
  function Masked(v: Byte): (r: Byte)
    ensures r / 2 == v / 2
    ensures IsBlack(r) == (IsBlack(v) != !IsNonData(v))
  {
    if IsNonData(v) then v else Flip(v)
  }

  /** The module in row r, column c of a matrix of dimension dim whose
   *  module was v, after the mask: the tiles start at the rows and columns
   *  below dim that are multiples of the periods, and may reach past dim
   *  into the margin of the matrix. */
  ghost function MaskedCell(mask: int, dim: int, v: Byte, r: nat, c: nat): Byte
    requires IsMask(mask)
  {
    var dr, dc := r % RowPeriod(mask), c % ColPeriod(mask);
    if r - dr < dim && c - dc < dim && Tile(mask, dr, dc) then Masked(v) else v
  }

  // ----- The tiles are the mask conditions -----

  /** Adding a multiple of 6 keeps the remainders by 2 and by 3. */
  lemma ModuloOfMultipleOf6(k: int, z: int)
    ensures (6 * k + z) % 2 == z % 2 && (6 * k + z) % 3 == z % 3
  {
  }

  /** The product of two numbers written as multiples of 6 plus a rest. */
  lemma ExpandBySix(a: int, x: int, b: int, y: int)
    ensures (6 * a + x) * (6 * b + y) == 6 * (6 * a * b + a * y + b * x) + x * y
  {
  }

  /** The products of the mask conditions depend on the row and column
   *  modulo 6 only. */
  lemma ProductModulo6(i: nat, j: nat)
    ensures (i * j) % 2 == ((i % 6) * (j % 6)) % 2
    ensures (i * j) % 3 == ((i % 6) * (j % 6)) % 3
    ensures (i + j) % 2 == (i % 6 + j % 6) % 2
  {
    var a, x := i / 6, i % 6;
    var b, y := j / 6, j % 6;
    assert i == 6 * a + x && j == 6 * b + y;
    ExpandBySix(a, x, b, y);
    ModuloOfMultipleOf6(6 * a * b + a * y + b * x, x * y);
    ModuloOfMultipleOf6(a + b, x + y);
  }

  /** Masks 5, 6 and 7 on one 6 by 6 period, row by row. */
  lemma SixBySixTile(mask: int, x: nat, y: nat)
    requires 5 <= mask <= 7 && x < 6 && y < 6
    ensures Tile(mask, x, y) <==> MaskCondition(mask, x, y)
  {
    if x == 0 {
      SixBySixRow0(mask, y);
    } else if x == 1 {
      SixBySixRow1(mask, y);
    } else if x == 2 {
      SixBySixRow2(mask, y);
    } else if x == 3 {
      SixBySixRow3(mask, y);
    } else if x == 4 {
      SixBySixRow4(mask, y);
    } else {
      SixBySixRow5(mask, y);
    }
  }

  /** Masks 5, 6 and 7 on row 0 of the period. */
  lemma SixBySixRow0(mask: int, y: nat)
    requires 5 <= mask <= 7 && y < 6
    ensures Tile(mask, 0, y) <==> MaskCondition(mask, 0, y)
  {
  }

  /** Masks 5, 6 and 7 on row 1 of the period. */
  lemma SixBySixRow1(mask: int, y: nat)
    requires 5 <= mask <= 7 && y < 6
    ensures Tile(mask, 1, y) <==> MaskCondition(mask, 1, y)
  {
    if y == 0 {
      assert 1 * y == 0;
    } else if y == 1 {
      assert 1 * y == 1;
    } else if y == 2 {
      assert 1 * y == 2;
    } else if y == 3 {
      assert 1 * y == 3;
    } else if y == 4 {
      assert 1 * y == 4;
    } else {
      assert 1 * y == 5;
    }
  }

  /** Masks 5, 6 and 7 on row 2 of the period. */
  lemma SixBySixRow2(mask: int, y: nat)
    requires 5 <= mask <= 7 && y < 6
    ensures Tile(mask, 2, y) <==> MaskCondition(mask, 2, y)
  {
    if y == 0 {
      assert 2 * y == 0;
    } else if y == 1 {
      assert 2 * y == 2;
    } else if y == 2 {
      assert 2 * y == 4;
    } else if y == 3 {
      assert 2 * y == 6;
    } else if y == 4 {
      assert 2 * y == 8;
    } else {
      assert 2 * y == 10;
    }
  }

  /** Masks 5, 6 and 7 on row 3 of the period. */
  lemma SixBySixRow3(mask: int, y: nat)
    requires 5 <= mask <= 7 && y < 6
    ensures Tile(mask, 3, y) <==> MaskCondition(mask, 3, y)
  {
    if y == 0 {
      assert 3 * y == 0;
    } else if y == 1 {
      assert 3 * y == 3;
    } else if y == 2 {
      assert 3 * y == 6;
    } else if y == 3 {
      assert 3 * y == 9;
    } else if y == 4 {
      assert 3 * y == 12;
    } else {
      assert 3 * y == 15;
    }
  }

  /** Masks 5, 6 and 7 on row 4 of the period. */
  lemma SixBySixRow4(mask: int, y: nat)
    requires 5 <= mask <= 7 && y < 6
    ensures Tile(mask, 4, y) <==> MaskCondition(mask, 4, y)
  {
    if y == 0 {
      assert 4 * y == 0;
    } else if y == 1 {
      assert 4 * y == 4;
    } else if y == 2 {
      assert 4 * y == 8;
    } else if y == 3 {
      assert 4 * y == 12;
    } else if y == 4 {
      assert 4 * y == 16;
    } else {
      assert 4 * y == 20;
    }
  }

  /** Masks 5, 6 and 7 on row 5 of the period. */
  lemma SixBySixRow5(mask: int, y: nat)
    requires 5 <= mask <= 7 && y < 6
    ensures Tile(mask, 5, y) <==> MaskCondition(mask, 5, y)
  {
    if y == 0 {
      assert 5 * y == 0;
    } else if y == 1 {
      assert 5 * y == 5;
    } else if y == 2 {
      assert 5 * y == 10;
    } else if y == 3 {
      assert 5 * y == 15;
    } else if y == 4 {
      assert 5 * y == 20;
    } else {
      assert 5 * y == 25;
    }
  }

  /** Masks 5, 6 and 7 repeat every 6 rows and every 6 columns. */
  lemma PeriodSix(mask: int, i: nat, j: nat)
    requires 5 <= mask <= 7
    ensures MaskCondition(mask, i, j) == MaskCondition(mask, i % 6, j % 6)
  {
    ProductModulo6(i, j);
  }

  /** Masks 0 .. 3: conditions on the sum of row and column, or on one of
   *  them, with the period of the tiles. */
  lemma SumTiles(mask: int, i: nat, j: nat)
    requires 0 <= mask <= 3
    ensures Tile(mask, i % RowPeriod(mask), j % ColPeriod(mask)) <==> MaskCondition(mask, i, j)
  {
  }

  /** Half a row index, from its quotient and remainder by 4. */
  lemma HalfByFour(i: nat)
    ensures i / 2 == 2 * (i / 4) + (i % 4) / 2
  {
  }

  /** A third of a column index, from its quotient and remainder by 6. */
  lemma ThirdBySix(j: nat)
    ensures j / 3 == 2 * (j / 6) + (j % 6) / 3
  {
  }

  /** Adding an even number keeps the parity. */
  lemma EvenShift(k: int, z: int)
    ensures (2 * k + z) % 2 == z % 2
  {
  }

  /** Mask 4: the row halved and the column divided by 3, on 4 by 6 tiles. */
  lemma BlockTile(i: nat, j: nat)
    ensures Tile(4, i % 4, j % 6) <==> MaskCondition(4, i, j)
  {
    HalfByFour(i);
    ThirdBySix(j);
    EvenShift(i / 4 + j / 6, (i % 4) / 2 + (j % 6) / 3);
  }

  /** Every tile of the decoder's masks is the mask condition on its
   *  period: a module is inverted by the tiles exactly when the condition
   *  of Table 10 holds for it. */
  lemma TileIsCondition(mask: int, i: nat, j: nat)
    requires IsMask(mask)
    ensures Tile(mask, i % RowPeriod(mask), j % ColPeriod(mask)) <==> MaskCondition(mask, i, j)
  {
    if mask >= 5 {
      PeriodSix(mask, i, j);
      SixBySixTile(mask, i % 6, j % 6);
    } else if mask == 4 {
      BlockTile(i, j);
    } else {
      SumTiles(mask, i, j);
    }
  }

  /** Inside the symbol the mask inverts exactly the data modules whose mask
   *  condition holds; function patterns and reserved areas, and every flag
   *  but the colour, are kept. */
  lemma MaskedInside(mask: int, dim: int, v: Byte, r: nat, c: nat)
    requires IsMask(mask) && r < dim && c < dim
    ensures MaskedCell(mask, dim, v, r, c) == if MaskCondition(mask, r, c) && !IsNonData(v) then Flip(v) else v
  {
    TileIsCondition(mask, r, c);
  }

  /** Masking is an involution: the same mask applied twice restores every
   *  module. */
  lemma MaskTwice(mask: int, dim: int, v: Byte, r: nat, c: nat)
    requires IsMask(mask)
    ensures MaskedCell(mask, dim, MaskedCell(mask, dim, v, r, c), r, c) == v
  {
    FlipFlip(v);
  }

  /** Masking changes the colour of a module at most: every flag is kept,
   *  and a module that is not data is never touched. */
  lemma MaskKeepsFlags(mask: int, dim: int, v: Byte, r: nat, c: nat)
    requires IsMask(mask)
    ensures MaskedCell(mask, dim, v, r, c) / 2 == v / 2
    ensures IsNonData(v) ==> MaskedCell(mask, dim, v, r, c) == v
  {
  }

  /** The module (r, c) of the decoder's MaskMatrix after ApplyMask(mask) on
   *  a base matrix module v: a mask outside 0 .. 7 matches no case of the
   *  switch and leaves the plain copy. */
  ghost function MaskedModule(mask: int, dim: int, v: Byte, r: nat, c: nat): Byte
  {
    if IsMask(mask) then MaskedCell(mask, dim, v, r, c) else v
  }

  /** Inside the symbol, ApplyMask inverts exactly the data modules where
   *  the condition of the mask holds. */
  lemma MaskedModuleInside(mask: int, dim: int, v: Byte, r: nat, c: nat)
    requires IsMask(mask) && r < dim && c < dim
    ensures MaskedModule(mask, dim, v, r, c) != v <==> MaskCondition(mask, r, c) && !IsNonData(v)
    ensures MaskedModule(mask, dim, v, r, c) / 2 == v / 2
  {
    MaskedInside(mask, dim, v, r, c);
  }

  // ----- The masking loops -----

  /** A copy of the matrix m, the Clone of the decoder's ApplyMask. */
  method Clone(m: array2<Byte>) returns (copy: array2<Byte>)
    ensures fresh(copy) && copy.Length0 == m.Length0 && copy.Length1 == m.Length1
    ensures forall r, c :: 0 <= r < m.Length0 && 0 <= c < m.Length1 ==> copy[r, c] == m[r, c]
  {
    copy := new Byte[m.Length0, m.Length1]((r, c) requires 0 <= r < m.Length0 && 0 <= c < m.Length1 reads m => m[r, c]);
  }

  /** The tile of height p whose first row is row = p * a holds the rows
   *  row .. row + p - 1. */
  lemma TileOrigin(p: int, a: nat, row: int, r: int)
    requires 1 <= p && row == p * a && row <= r < row + p
    ensures r % p == r - row
  {
    DivModOfSum(a, p, r - row);
    assert a * p + (r - row) == r;
  }

  /** A module at or below row p * a lies in a tile that starts there or
   *  later. */
  lemma TileStartAbove(p: int, a: nat, r: int)
    requires 1 <= p && 0 <= p * a <= r
    ensures p * a <= r - r % p
  {
    var q := r / p;
    assert r == q * p + r % p;
    if q < a {
      MulMonotone(q, a - 1, p);
      MulSucc(a - 1, p);
      assert false;
    }
    MulMonotone(a, q, p);
  }

  /** The decoder's ApplyMask0 .. ApplyMask7 on the matrix m of a symbol of
   *  dimension dim: the tiles of the mask walked row band by row band. */
  method ApplyTiles(m: array2<Byte>, mask: int, dim: int)
    requires IsMask(mask) && 0 <= dim && m.Length0 == dim + 5 && m.Length1 == dim + 5
    modifies m
    ensures forall r, c :: 0 <= r < m.Length0 && 0 <= c < m.Length1 ==>
      m[r, c] == MaskedCell(mask, dim, old(m[r, c]), r, c)
  {
    var p := RowPeriod(mask);
    var row := 0;
    ghost var a: nat := 0;
    while row < dim
      invariant row == p * a && row <= dim + p - 1
      invariant forall r, c :: 0 <= r < m.Length0 && 0 <= c < m.Length1 ==>
        m[r, c] == if r < row then MaskedCell(mask, dim, old(m[r, c]), r, c) else old(m[r, c])
    {
      MaskBand(m, mask, dim, row, a);
      row, a := row + p, a + 1;
    }
    forall r, c | 0 <= r < m.Length0 && 0 <= c < m.Length1 && r >= row
      ensures m[r, c] == MaskedCell(mask, dim, old(m[r, c]), r, c)
    {
      TileStartAbove(p, a, r);
    }
  }

  /** One band of tiles: the tiles whose first row is row, walked column by
   *  column. */
  method MaskBand(m: array2<Byte>, mask: int, dim: int, row: int, ghost a: nat)
    requires IsMask(mask) && 0 <= row < dim && row == RowPeriod(mask) * a
    requires m.Length0 == dim + 5 && m.Length1 == dim + 5
    modifies m
    ensures forall r, c :: 0 <= r < m.Length0 && 0 <= c < m.Length1 ==>
      m[r, c] == if row <= r < row + RowPeriod(mask) then MaskedCell(mask, dim, old(m[r, c]), r, c) else old(m[r, c])
  {
    var p, q := RowPeriod(mask), ColPeriod(mask);
    var col := 0;
    ghost var b: nat := 0;
    while col < dim
      invariant col == q * b && col <= dim + q - 1
      invariant forall r, c :: 0 <= r < m.Length0 && 0 <= c < m.Length1 ==>
        m[r, c] == if row <= r < row + p && c < col then MaskedCell(mask, dim, old(m[r, c]), r, c) else old(m[r, c])
    {
      label before:
      MaskTile(m, mask, row, col);
      forall r, c | 0 <= r < m.Length0 && 0 <= c < m.Length1 && row <= r < row + p && col <= c < col + q
        ensures m[r, c] == MaskedCell(mask, dim, old(m[r, c]), r, c)
      {
        assert old@before(m[r, c]) == old(m[r, c]);
        TileOrigin(p, a, row, r);
        TileOrigin(q, b, col, c);
      }
      col, b := col + q, b + 1;
    }
    forall r, c | 0 <= r < m.Length0 && 0 <= c < m.Length1 && row <= r < row + p && c >= col
      ensures m[r, c] == MaskedCell(mask, dim, old(m[r, c]), r, c)
    {
      TileStartAbove(q, b, c);
    }
  }

  /** The writes of one tile, whose top left module is (row, col): the data
   *  modules of its mask cells are inverted. */
  method MaskTile(m: array2<Byte>, mask: int, row: int, col: int)
    requires IsMask(mask) && 0 <= row && row + RowPeriod(mask) <= m.Length0 && 0 <= col && col + ColPeriod(mask) <= m.Length1
    modifies m
    ensures forall r, c :: 0 <= r < m.Length0 && 0 <= c < m.Length1 ==>
      m[r, c] == if row <= r < row + RowPeriod(mask) && col <= c < col + ColPeriod(mask) && Tile(mask, r - row, c - col)
        then Masked(old(m[r, c])) else old(m[r, c])
  {
    var p, q := RowPeriod(mask), ColPeriod(mask);
    forall dr, dc | 0 <= dr < p && 0 <= dc < q && Tile(mask, dr, dc) && !IsNonData(m[row + dr, col + dc]) {
      m[row + dr, col + dc] := Flip(m[row + dr, col + dc]);
    }
  }
}
