/** The function patterns of a QR Code symbol (ISO/IEC 18004:2015 section
 *  6.3) as the decoder lays them out in the base matrix before it samples
 *  the image: finder patterns with their separators and the reserved format
 *  modules, timing patterns, alignment patterns and the reserved version
 *  information blocks. Every other module of the matrix stays a white data
 *  module. */
module Layout {
  import opened Bytes
  import opened Matrix
  import opened CodeTables

  /** Top left finder pattern, its separator and the format modules, 9 x 9. */
  const FinderTopLeft: seq<seq<Byte>> := [
      [FixedBlack, FixedBlack, FixedBlack, FixedBlack, FixedBlack, FixedBlack, FixedBlack, FixedWhite, FormatWhite],
      [FixedBlack, FixedWhite, FixedWhite, FixedWhite, FixedWhite, FixedWhite, FixedBlack, FixedWhite, FormatWhite],
      [FixedBlack, FixedWhite, FixedBlack, FixedBlack, FixedBlack, FixedWhite, FixedBlack, FixedWhite, FormatWhite],
      [FixedBlack, FixedWhite, FixedBlack, FixedBlack, FixedBlack, FixedWhite, FixedBlack, FixedWhite, FormatWhite],
      [FixedBlack, FixedWhite, FixedBlack, FixedBlack, FixedBlack, FixedWhite, FixedBlack, FixedWhite, FormatWhite],
      [FixedBlack, FixedWhite, FixedWhite, FixedWhite, FixedWhite, FixedWhite, FixedBlack, FixedWhite, FormatWhite],
      [FixedBlack, FixedBlack, FixedBlack, FixedBlack, FixedBlack, FixedBlack, FixedBlack, FixedWhite, FormatWhite],
      [FixedWhite, FixedWhite, FixedWhite, FixedWhite, FixedWhite, FixedWhite, FixedWhite, FixedWhite, FormatWhite],
      [FormatWhite, FormatWhite, FormatWhite, FormatWhite, FormatWhite, FormatWhite, FormatWhite, FormatWhite, FormatWhite]
    ]

  /** Top right finder pattern, its separator and the format modules, 9 x 8. */
  const FinderTopRight: seq<seq<Byte>> := [
      [FixedWhite, FixedBlack, FixedBlack, FixedBlack, FixedBlack, FixedBlack, FixedBlack, FixedBlack],
      [FixedWhite, FixedBlack, FixedWhite, FixedWhite, FixedWhite, FixedWhite, FixedWhite, FixedBlack],
      [FixedWhite, FixedBlack, FixedWhite, FixedBlack, FixedBlack, FixedBlack, FixedWhite, FixedBlack],
      [FixedWhite, FixedBlack, FixedWhite, FixedBlack, FixedBlack, FixedBlack, FixedWhite, FixedBlack],
      [FixedWhite, FixedBlack, FixedWhite, FixedBlack, FixedBlack, FixedBlack, FixedWhite, FixedBlack],
      [FixedWhite, FixedBlack, FixedWhite, FixedWhite, FixedWhite, FixedWhite, FixedWhite, FixedBlack],
      [FixedWhite, FixedBlack, FixedBlack, FixedBlack, FixedBlack, FixedBlack, FixedBlack, FixedBlack],
      [FixedWhite, FixedWhite, FixedWhite, FixedWhite, FixedWhite, FixedWhite, FixedWhite, FixedWhite],
      [FormatWhite, FormatWhite, FormatWhite, FormatWhite, FormatWhite, FormatWhite, FormatWhite, FormatWhite]
    ]

  /** Bottom left finder pattern, its separator, the format modules and the
   *  dark module, 8 x 9. */
  const FinderBottomLeft: seq<seq<Byte>> := [
      [FixedWhite, FixedWhite, FixedWhite, FixedWhite, FixedWhite, FixedWhite, FixedWhite, FixedWhite, FixedBlack],
      [FixedBlack, FixedBlack, FixedBlack, FixedBlack, FixedBlack, FixedBlack, FixedBlack, FixedWhite, FormatWhite],
      [FixedBlack, FixedWhite, FixedWhite, FixedWhite, FixedWhite, FixedWhite, FixedBlack, FixedWhite, FormatWhite],
      [FixedBlack, FixedWhite, FixedBlack, FixedBlack, FixedBlack, FixedWhite, FixedBlack, FixedWhite, FormatWhite],
      [FixedBlack, FixedWhite, FixedBlack, FixedBlack, FixedBlack, FixedWhite, FixedBlack, FixedWhite, FormatWhite],
      [FixedBlack, FixedWhite, FixedBlack, FixedBlack, FixedBlack, FixedWhite, FixedBlack, FixedWhite, FormatWhite],
      [FixedBlack, FixedWhite, FixedWhite, FixedWhite, FixedWhite, FixedWhite, FixedBlack, FixedWhite, FormatWhite],
      [FixedBlack, FixedBlack, FixedBlack, FixedBlack, FixedBlack, FixedBlack, FixedBlack, FixedWhite, FormatWhite]
    ]

  /** Alignment pattern, 5 x 5. */
  const AlignmentPattern: seq<seq<Byte>> := [
      [FixedBlack, FixedBlack, FixedBlack, FixedBlack, FixedBlack],
      [FixedBlack, FixedWhite, FixedWhite, FixedWhite, FixedBlack],
      [FixedBlack, FixedWhite, FixedBlack, FixedWhite, FixedBlack],
      [FixedBlack, FixedWhite, FixedWhite, FixedWhite, FixedBlack],
      [FixedBlack, FixedBlack, FixedBlack, FixedBlack, FixedBlack]
    ]

  /** Row and column coordinates of the alignment pattern centres of a
   *  version (ISO/IEC 18004:2015 annex E), row `version` of the alignment
   *  table. */
  function AlignmentPositions(version: int): (pos: seq<int>)
    requires 2 <= version <= 40
    ensures |pos| >= 2 && pos[0] == 6 && pos[|pos| - 1] == 4 * version + 10
  {
    TableRow(version, 40)
  }

  /** Row `version` of the alignment table, found by walking the table down
   *  from row k one row at a time; the walk keeps the 39 rows out of sight
   *  wherever the version is not known. */
  function TableRow(version: int, k: int): (pos: seq<int>)
    requires 2 <= version <= k <= 40
    ensures |pos| >= 2 && pos[0] == 6 && pos[|pos| - 1] == 4 * version + 10
    decreases k
  {
    if k == version then
      AlignmentPositionsInside(k);
      AlignmentPositionArray(k)
    else
      TableRow(version, k - 1)
  }

  /** The walk finds the table row. */
  lemma {:induction false} TableRowIs(version: int, k: int)
    requires 2 <= version <= k <= 40
    ensures TableRow(version, k) == AlignmentPositionArray(version)
    decreases k
  {
    if k != version {
      TableRowIs(version, k - 1);
    }
  }

  /** Consecutive centres lie at least 12 modules apart, and every centre is
   *  on an even coordinate. */
  predicate Spaced(pos: seq<int>)
  {
    |pos| >= 1 && SpacedFrom(pos, 0)
  }

  /** The centres from index k on are spaced. */
  predicate SpacedFrom(pos: seq<int>, k: nat)
    decreases |pos| - k
  {
    k >= |pos| || (pos[k] % 2 == 0 && (k + 1 == |pos| || (pos[k] + 12 <= pos[k + 1] && SpacedFrom(pos, k + 1))))
  }

  /** The alignment centres of every version are spaced, and there are
   *  version / 7 + 2 of them. */
  lemma AlignmentSpaced(version: int)
    requires 2 <= version <= 40
    ensures Spaced(AlignmentPositions(version)) && |AlignmentPositions(version)| == version / 7 + 2
  {
    TableRowIs(version, 40);
    if version <= 8 {
      AlignmentSpacedUpTo8(version);
    } else if version <= 15 {
      AlignmentSpacedUpTo15(version);
    } else if version <= 21 {
      AlignmentSpacedUpTo21(version);
    } else if version <= 27 {
      AlignmentSpacedUpTo27(version);
    } else if version <= 34 {
      AlignmentSpacedUpTo34(version);
    } else {
      AlignmentSpacedUpTo40(version);
    }
  }

  lemma AlignmentSpacedUpTo8(version: int)
    requires 2 <= version <= 8
    ensures Spaced(AlignmentPositionArray(version)) && |AlignmentPositionArray(version)| == version / 7 + 2
  {
    if version == 2 {
      assert Spaced(AlignmentPositionArray(2));
    } else if version == 3 {
      assert Spaced(AlignmentPositionArray(3));
    } else if version == 4 {
      assert Spaced(AlignmentPositionArray(4));
    } else if version == 5 {
      assert Spaced(AlignmentPositionArray(5));
    } else if version == 6 {
      assert Spaced(AlignmentPositionArray(6));
    } else if version == 7 {
      assert Spaced(AlignmentPositionArray(7));
    } else if version == 8 {
      assert Spaced(AlignmentPositionArray(8));
    }
  }

  lemma AlignmentSpacedUpTo15(version: int)
    requires 9 <= version <= 15
    ensures Spaced(AlignmentPositionArray(version)) && |AlignmentPositionArray(version)| == version / 7 + 2
  {
    if version == 9 {
      assert Spaced(AlignmentPositionArray(9));
    } else if version == 10 {
      assert Spaced(AlignmentPositionArray(10));
    } else if version == 11 {
      assert Spaced(AlignmentPositionArray(11));
    } else if version == 12 {
      assert Spaced(AlignmentPositionArray(12));
    } else if version == 13 {
      assert Spaced(AlignmentPositionArray(13));
    } else if version == 14 {
      assert Spaced(AlignmentPositionArray(14));
    } else if version == 15 {
      assert Spaced(AlignmentPositionArray(15));
    }
  }

  lemma AlignmentSpacedUpTo21(version: int)
    requires 16 <= version <= 21
    ensures Spaced(AlignmentPositionArray(version)) && |AlignmentPositionArray(version)| == version / 7 + 2
  {
    if version == 16 {
      assert Spaced(AlignmentPositionArray(16));
    } else if version == 17 {
      assert Spaced(AlignmentPositionArray(17));
    } else if version == 18 {
      assert Spaced(AlignmentPositionArray(18));
    } else if version == 19 {
      assert Spaced(AlignmentPositionArray(19));
    } else if version == 20 {
      assert Spaced(AlignmentPositionArray(20));
    } else if version == 21 {
      assert Spaced(AlignmentPositionArray(21));
    }
  }

  lemma AlignmentSpacedUpTo27(version: int)
    requires 22 <= version <= 27
    ensures Spaced(AlignmentPositionArray(version)) && |AlignmentPositionArray(version)| == version / 7 + 2
  {
    if version == 22 {
      assert Spaced(AlignmentPositionArray(22));
    } else if version == 23 {
      assert Spaced(AlignmentPositionArray(23));
    } else if version == 24 {
      assert Spaced(AlignmentPositionArray(24));
    } else if version == 25 {
      assert Spaced(AlignmentPositionArray(25));
    } else if version == 26 {
      assert Spaced(AlignmentPositionArray(26));
    } else if version == 27 {
      assert Spaced(AlignmentPositionArray(27));
    }
  }

  lemma AlignmentSpacedUpTo34(version: int)
    requires 28 <= version <= 34
    ensures Spaced(AlignmentPositionArray(version)) && |AlignmentPositionArray(version)| == version / 7 + 2
  {
    if version == 28 {
      assert Spaced(AlignmentPositionArray(28));
    } else if version == 29 {
      assert Spaced(AlignmentPositionArray(29));
    } else if version == 30 {
      assert Spaced(AlignmentPositionArray(30));
    } else if version == 31 {
      assert Spaced(AlignmentPositionArray(31));
    } else if version == 32 {
      assert Spaced(AlignmentPositionArray(32));
    } else if version == 33 {
      assert Spaced(AlignmentPositionArray(33));
    } else if version == 34 {
      assert Spaced(AlignmentPositionArray(34));
    }
  }

  lemma AlignmentSpacedUpTo40(version: int)
    requires 35 <= version <= 40
    ensures Spaced(AlignmentPositionArray(version)) && |AlignmentPositionArray(version)| == version / 7 + 2
  {
    if version == 35 {
      assert Spaced(AlignmentPositionArray(35));
    } else if version == 36 {
      assert Spaced(AlignmentPositionArray(36));
    } else if version == 37 {
      assert Spaced(AlignmentPositionArray(37));
    } else if version == 38 {
      assert Spaced(AlignmentPositionArray(38));
    } else if version == 39 {
      assert Spaced(AlignmentPositionArray(39));
    } else if version == 40 {
      assert Spaced(AlignmentPositionArray(40));
    }
  }

  lemma {:induction false} SpacedApart(pos: seq<int>, i: int, j: int)
    requires 0 <= i < j < |pos| && SpacedFrom(pos, i)
    ensures pos[i] + 12 * (j - i) <= pos[j] && pos[i] % 2 == 0 && pos[j] % 2 == 0 && SpacedFrom(pos, j)
    decreases j - i
  {
    if i + 1 < j {
      SpacedApart(pos, i + 1, j);
    }
  }

  /** Two different centres are at least 12 modules apart. */
  lemma SpacedDistinct(pos: seq<int>, i: int, j: int)
    requires Spaced(pos) && 0 <= i < |pos| && 0 <= j < |pos|
    ensures pos[i] % 2 == 0
    ensures i < j ==> pos[i] + 12 <= pos[j]
    ensures j < i ==> pos[j] + 12 <= pos[i]
  {
    if i > 0 {
      SpacedApart(pos, 0, i);
    }
    if j > 0 {
      SpacedApart(pos, 0, j);
    }
    if i < j {
      SpacedApart(pos, i, j);
    } else if j < i {
      SpacedApart(pos, j, i);
    }
  }

  /** The index of the centre within two modules of x, or -1: the alignment
   *  pattern, if any, that covers coordinate x. */
  function Near(pos: seq<int>, x: int): (i: int)
    ensures -1 <= i < |pos|
    ensures i >= 0 ==> pos[i] - 2 <= x <= pos[i] + 2
    decreases |pos|
  {
    if |pos| == 0 then -1
    else if pos[|pos| - 1] - 2 <= x <= pos[|pos| - 1] + 2 then |pos| - 1
    else Near(pos[..|pos| - 1], x)
  }

  /** Within two modules of some centre, Near finds a centre. */
  lemma {:induction false} NearFinds(pos: seq<int>, x: int, k: int)
    requires 0 <= k < |pos| && pos[k] - 2 <= x <= pos[k] + 2
    ensures Near(pos, x) >= 0
    decreases |pos|
  {
    if k < |pos| - 1 && !(pos[|pos| - 1] - 2 <= x <= pos[|pos| - 1] + 2) {
      NearFinds(pos[..|pos| - 1], x, k);
    }
  }

  /** Within two modules of a centre, that centre is the one Near finds. */
  lemma NearIs(pos: seq<int>, x: int, i: int)
    requires Spaced(pos) && 0 <= i < |pos| && pos[i] - 2 <= x <= pos[i] + 2
    ensures Near(pos, x) == i
  {
    NearFinds(pos, x, i);
    var j := Near(pos, x);
    SpacedDistinct(pos, i, j);
  }

  /** Where the alignment pattern covering x lies: the first centre is 6,
   *  the last 4 * version + 10, the others in between. */
  lemma NearRange(version: int, x: int)
    requires 2 <= version <= 40
    ensures var pos := AlignmentPositions(version); var i := Near(pos, x);
      (i == 0 ==> 4 <= x <= 8) && (0 < i < |pos| - 1 ==> 16 <= x <= 4 * version)
      && (i == |pos| - 1 ==> 4 * version + 8 <= x <= 4 * version + 12)
  {
    var pos := AlignmentPositions(version);
    var i := Near(pos, x);
    AlignmentSpaced(version);
    if 0 < i {
      SpacedDistinct(pos, 0, i);
    }
    if 0 <= i < |pos| - 1 {
      SpacedDistinct(pos, i, |pos| - 1);
    }
  }

  predicate InRect(r: int, c: int, top: int, left: int, rows: int, cols: int)
  {
    top <= r < top + rows && left <= c < left + cols
  }

  /** p has `rows` rows of `cols` modules. */
  predicate Rect(p: seq<seq<Byte>>, rows: int, cols: int)
  {
    |p| == rows && forall i :: 0 <= i < rows ==> |p[i]| == cols
  }

  /** A block of `rows` x `cols` modules of value v. */
  function Block(rows: nat, cols: nat, v: Byte): (p: seq<seq<Byte>>)
    ensures Rect(p, rows, cols)
    ensures forall i, j :: 0 <= i < rows && 0 <= j < cols ==> p[i][j] == v
  {
    seq(rows, _ => seq(cols, _ => v))
  }

  /** Alignment patterns sit on every pair of centres except the three
   *  pairs that fall on the finder patterns. */
  predicate Corner(i: int, j: int, n: int)
  {
    (i == 0 && j == 0) || (i == 0 && j == n - 1) || (i == n - 1 && j == 0)
  }

  /** Module (r, c) belongs to the alignment pattern of a pair of the
   *  centres pos. */
  predicate AlignmentCell(pos: seq<int>, r: int, c: int)
  {
    Near(pos, r) >= 0 && Near(pos, c) >= 0 && !Corner(Near(pos, r), Near(pos, c), |pos|)
  }

  /** The alignment pattern module at (r, c), for a module of an alignment
   *  pattern (white elsewhere). */
  function AlignmentModule(pos: seq<int>, r: int, c: int): Byte
  {
    var i, j := Near(pos, r), Near(pos, c);
    if i < 0 || j < 0 then White else AlignmentPattern[r - pos[i] + 2][c - pos[j] + 2]
  }

  /** Module (r, c) lies on the timing row or column, before column or row
   *  `end`. */
  predicate Timing(end: int, r: int, c: int)
  {
    (r == 6 && 8 <= c < end) || (c == 6 && 8 <= r < end)
  }

  /** Timing pattern module z, counted from the symbol's edge: dark on even z. */
  function TimingModule(z: int): (v: Byte)
    ensures IsFixed(v) && (IsBlack(v) <==> z % 2 == 0)
  {
    if z % 2 == 0 then FixedBlack else FixedWhite
  }

  /** The base matrix after the three finder patterns. */
  function Finders(version: int, r: int, c: int): Byte
    requires 1 <= version <= 40
  {
    var dim := 17 + 4 * version;
    if InRect(r, c, dim - 8, 0, 8, 9) then FinderBottomLeft[r - (dim - 8)][c]
    else if InRect(r, c, 0, dim - 8, 9, 8) then FinderTopRight[r][c - (dim - 8)]
    else if InRect(r, c, 0, 0, 9, 9) then FinderTopLeft[r][c]
    else White
  }

  /** The base matrix after the timing patterns. */
  function Timed(version: int, r: int, c: int): Byte
    requires 1 <= version <= 40
  {
    if Timing(17 + 4 * version - 8, r, c) then TimingModule(r + c - 6) else Finders(version, r, c)
  }

  /** The base matrix after the alignment patterns. */
  function Aligned(version: int, r: int, c: int): Byte
    requires 1 <= version <= 40
  {
    if version > 1 && AlignmentCell(AlignmentPositions(version), r, c) then AlignmentModule(AlignmentPositions(version), r, c)
    else Timed(version, r, c)
  }

  /** Module (r, c) of the reserved version information blocks (3 x 6 and
   *  6 x 3, from version 7 on). */
  predicate VersionCell(version: int, r: int, c: int)
  {
    var dim := 17 + 4 * version;
    version >= 7 && (InRect(r, c, 0, dim - 11, 6, 3) || InRect(r, c, dim - 11, 0, 3, 6))
  }

  /** Module (r, c) of the base matrix of a version: the function pattern
   *  layers in the order the decoder writes them, the later over the
   *  earlier. */
  function BaseModule(version: int, r: int, c: int): Byte
    requires 1 <= version <= 40
  {
    if VersionCell(version, r, c) then FormatWhite else Aligned(version, r, c)
  }

  /** Copies the rows x cols pattern p into m with its top left module at
   *  (top, left). */
  method Paste(m: array2<Byte>, p: seq<seq<Byte>>, top: int, left: int, rows: int, cols: int)
    requires 0 <= rows && 0 <= cols && Rect(p, rows, cols) && 0 <= top && top + rows <= m.Length0 && 0 <= left && left + cols <= m.Length1
    modifies m
    ensures forall r, c :: 0 <= r < m.Length0 && 0 <= c < m.Length1 ==>
      m[r, c] == if InRect(r, c, top, left, rows, cols) then p[r - top][c - left] else old(m[r, c])
  {
    var row := 0;
    while row < rows
      invariant 0 <= row <= rows
      invariant forall r, c :: 0 <= r < m.Length0 && 0 <= c < m.Length1 ==>
        m[r, c] == if InRect(r, c, top, left, row, cols) then p[r - top][c - left] else old(m[r, c])
    {
      var col := 0;
      while col < cols
        invariant 0 <= col <= cols
        invariant forall r, c :: 0 <= r < m.Length0 && 0 <= c < m.Length1 ==>
          m[r, c] == if InRect(r, c, top, left, row, cols) || InRect(r, c, top + row, left, 1, col)
                     then p[r - top][c - left] else old(m[r, c])
      {
        m[top + row, left + col] := p[row][col];
        col := col + 1;
      }
      row := row + 1;
    }
  }

  /** The timing row and column between the finder patterns. */
  method PlaceTiming(m: array2<Byte>, dim: int)
    requires 16 <= dim && m.Length0 == dim + 5 && m.Length1 == dim + 5
    modifies m
    ensures forall r, c :: 0 <= r < m.Length0 && 0 <= c < m.Length1 ==>
      m[r, c] == if Timing(dim - 8, r, c) then TimingModule(r + c - 6) else old(m[r, c])
  {
    var z := 8;
    while z < dim - 8
      invariant 8 <= z <= dim - 8
      invariant forall r, c :: 0 <= r < m.Length0 && 0 <= c < m.Length1 ==>
        m[r, c] == if Timing(z, r, c) then TimingModule(r + c - 6) else old(m[r, c])
    {
      var v := if z % 2 == 0 then FixedBlack else FixedWhite;
      m[6, z] := v;
      m[z, 6] := v;
      z := z + 1;
    }
  }

  /** The cells the alignment loop has written before pair (row, col). */
  predicate AlignedBefore(pos: seq<int>, row: int, col: int, r: int, c: int)
  {
    AlignmentCell(pos, r, c) && (Near(pos, r) < row || (Near(pos, r) == row && Near(pos, c) < col))
  }

  /** Pair (row, col) covers exactly the cells within two modules of its
   *  centres, and writes there the alignment module. */
  lemma AlignedStep(pos: seq<int>, row: int, col: int, r: int, c: int)
    requires Spaced(pos) && 0 <= row < |pos| && 0 <= col < |pos|
    ensures var inside := InRect(r, c, pos[row] - 2, pos[col] - 2, 5, 5);
      (AlignedBefore(pos, row, col + 1, r, c) <==> AlignedBefore(pos, row, col, r, c) || (inside && !Corner(row, col, |pos|)))
      && (inside && !Corner(row, col, |pos|) ==>
          AlignmentCell(pos, r, c) && AlignmentModule(pos, r, c) == AlignmentPattern[r - (pos[row] - 2)][c - (pos[col] - 2)])
  {
    if pos[row] - 2 <= r <= pos[row] + 2 {
      NearIs(pos, r, row);
    }
    if pos[col] - 2 <= c <= pos[col] + 2 {
      NearIs(pos, c, col);
    }
  }

  /** m holds the alignment patterns of the pairs of centres before
   *  (row, col) written over the matrix orig. */
  ghost predicate AlignState(m: array2<Byte>, pos: seq<int>, row: int, col: int, orig: seq<seq<Byte>>)
    reads m
  {
    |orig| == m.Length0 && (forall r :: 0 <= r < m.Length0 ==> |orig[r]| == m.Length1)
    && forall r, c :: 0 <= r < m.Length0 && 0 <= c < m.Length1 ==>
         m[r, c] == if AlignedBefore(pos, row, col, r, c) then AlignmentModule(pos, r, c) else orig[r][c]
  }

  /** One step of the alignment loop: the pattern of pair (row, col) unless
   *  the pair is a corner. */
  method PlaceAlignmentAt(m: array2<Byte>, version: int, alignPos: seq<int>, row: int, col: int, ghost orig: seq<seq<Byte>>)
    requires 2 <= version <= 40 && alignPos == AlignmentPositions(version) && AlignState(m, alignPos, row, col, orig)
    requires 0 <= row < |alignPos| && 0 <= col < |alignPos|
    requires m.Length0 == 17 + 4 * version + 5 && m.Length1 == 17 + 4 * version + 5
    modifies m
    ensures AlignState(m, alignPos, row, col + 1, orig)
  {
    var alignmentDimension := |alignPos|;
    AlignmentSpaced(version);
    SpacedDistinct(alignPos, 0, row);
    SpacedDistinct(alignPos, row, alignmentDimension - 1);
    SpacedDistinct(alignPos, 0, col);
    SpacedDistinct(alignPos, col, alignmentDimension - 1);
    if !((col == 0 && row == 0) || (col == alignmentDimension - 1 && row == 0) || (col == 0 && row == alignmentDimension - 1)) {
      Paste(m, AlignmentPattern, alignPos[row] - 2, alignPos[col] - 2, 5, 5);
    }
    forall r, c | 0 <= r < m.Length0 && 0 <= c < m.Length1
      ensures m[r, c] == if AlignedBefore(alignPos, row, col + 1, r, c) then AlignmentModule(alignPos, r, c) else orig[r][c]
    {
      AlignedStep(alignPos, row, col, r, c);
    }
  }

  /** The alignment patterns: every pair of centres but the three corners. */
  method PlaceAlignment(m: array2<Byte>, version: int)
    requires 2 <= version <= 40 && m.Length0 == 17 + 4 * version + 5 && m.Length1 == 17 + 4 * version + 5
    modifies m
    ensures forall r, c :: 0 <= r < m.Length0 && 0 <= c < m.Length1 ==>
      m[r, c] == if AlignmentCell(AlignmentPositions(version), r, c) then AlignmentModule(AlignmentPositions(version), r, c) else old(m[r, c])
  {
    ghost var orig := Cells(m);
    var alignPos := AlignmentPositions(version);
    var alignmentDimension := |alignPos|;
    var row := 0;
    while row < alignmentDimension
      invariant 0 <= row <= alignmentDimension
      invariant AlignState(m, alignPos, row, 0, orig)
    {
      var col := 0;
      while col < alignmentDimension
        invariant 0 <= col <= alignmentDimension
        invariant AlignState(m, alignPos, row, col, orig)
      {
        PlaceAlignmentAt(m, version, alignPos, row, col, orig);
        col := col + 1;
      }
      row := row + 1;
    }
    forall r, c | 0 <= r < m.Length0 && 0 <= c < m.Length1
      ensures m[r, c] == if AlignmentCell(alignPos, r, c) then AlignmentModule(alignPos, r, c) else old(m[r, c])
    {
      CellAt(m, r, c);
    }
  }

  /** The three finder patterns, with their separators and format modules,
   *  over an all white matrix. */
  method PlaceFinders(m: array2<Byte>, version: int)
    requires 1 <= version <= 40 && m.Length0 == 17 + 4 * version + 5 && m.Length1 == 17 + 4 * version + 5
    requires forall r, c :: 0 <= r < m.Length0 && 0 <= c < m.Length1 ==> m[r, c] == White
    modifies m
    ensures forall r, c :: 0 <= r < m.Length0 && 0 <= c < m.Length1 ==> m[r, c] == Finders(version, r, c)
  {
    var dim := 17 + 4 * version;
    Paste(m, FinderTopLeft, 0, 0, 9, 9);
    var pos := dim - 8;
    Paste(m, FinderTopRight, 0, pos, 9, 8);
    Paste(m, FinderBottomLeft, pos, 0, 8, 9);
  }

  /** The two reserved version information blocks, from version 7 on. */
  method PlaceVersionBlocks(m: array2<Byte>, version: int)
    requires 1 <= version <= 40 && m.Length0 == 17 + 4 * version + 5 && m.Length1 == 17 + 4 * version + 5
    modifies m
    ensures forall r, c :: 0 <= r < m.Length0 && 0 <= c < m.Length1 ==>
      m[r, c] == if VersionCell(version, r, c) then FormatWhite else old(m[r, c])
  {
    if version >= 7 {
      var pos := 17 + 4 * version - 11;
      Paste(m, Block(6, 3, FormatWhite), 0, pos, 6, 3);
      Paste(m, Block(3, 6, FormatWhite), pos, 0, 3, 6);
    }
  }

  /** The base matrix of a version: dim + 5 modules square, every module
   *  white data before the function patterns are written over it. */
  method BuildBase(version: int) returns (m: array2<Byte>)
    requires 1 <= version <= 40
    ensures fresh(m) && m.Length0 == 17 + 4 * version + 5 && m.Length1 == 17 + 4 * version + 5
    ensures forall r, c :: 0 <= r < m.Length0 && 0 <= c < m.Length1 ==> m[r, c] == BaseModule(version, r, c)
  {
    var dim := 17 + 4 * version;
    m := new Byte[dim + 5, dim + 5]((_, _) => White);
    PlaceFinders(m, version);
    PlaceTiming(m, dim);
    assert forall r, c :: 0 <= r < m.Length0 && 0 <= c < m.Length1 ==> m[r, c] == Timed(version, r, c);
    if version > 1 {
      PlaceAlignment(m, version);
    }
    assert forall r, c :: 0 <= r < m.Length0 && 0 <= c < m.Length1 ==> m[r, c] == Aligned(version, r, c);
    PlaceVersionBlocks(m, version);
  }

  /** Chebyshev distance of (i, j) from the centre (3, 3) of a finder
   *  pattern. */
  function Ring(i: int, j: int): nat
  {
    var di := if i < 3 then 3 - i else i - 3;
    var dj := if j < 3 then 3 - j else j - 3;
    if di < dj then dj else di
  }

  /** Module (i, j) of a finder pattern: a dark 7 x 7 square, a light 5 x 5
   *  square and a dark 3 x 3 square, concentric (ISO/IEC 18004:2015 section
   *  6.3.3). */
  function FinderModule(i: int, j: int): Byte
  {
    if Ring(i, j) == 2 then FixedWhite else FixedBlack
  }

  /** Module (2 + dr, 2 + dc) of an alignment pattern: a dark 5 x 5 square,
   *  a light 3 x 3 square and a dark centre module (ISO/IEC 18004:2015
   *  section 6.3.6). */
  function AlignmentRing(dr: int, dc: int): Byte
  {
    var d := if dr < 0 then -dr else dr;
    var e := if dc < 0 then -dc else dc;
    if (d == 1 && e <= 1) || (e == 1 && d <= 1) then FixedWhite else FixedBlack
  }

  /** The flags the layout writes: white data, reserved format modules and
   *  fixed white and black modules. */
  predicate IsBaseFlag(v: Byte)
  {
    v == White || v == FormatWhite || v == FixedWhite || v == FixedBlack
  }

  /** The finder tables hold the ISO finder pattern. */
  lemma FinderTables(i: int, j: int)
    requires 0 <= i < 7 && 0 <= j < 7
    ensures FinderTopLeft[i][j] == FinderModule(i, j)
    ensures FinderTopRight[i][j + 1] == FinderModule(i, j)
    ensures FinderBottomLeft[i + 1][j] == FinderModule(i, j)
  {
  }

  /** The separator and format rows and columns of the top left table. */
  lemma TopLeftRim(k: int)
    requires 0 <= k < 8
    ensures FinderTopLeft[7][k] == FixedWhite && FinderTopLeft[k][7] == FixedWhite
    ensures FinderTopLeft[8][k] == FormatWhite && FinderTopLeft[k][8] == FormatWhite
  {
  }

  /** The rims of the top right table, one fact at a time so that a proof
   *  about a symbolic column sees only the entry it needs. */
  lemma TopRightSeparatorRow(j: int)
    requires 0 <= j < 8
    ensures FinderTopRight[7][j] == FixedWhite
  {
  }

  lemma TopRightSeparatorColumn(i: int)
    requires 0 <= i < 8
    ensures FinderTopRight[i][0] == FixedWhite
  {
  }

  lemma TopRightFormatRow(j: int)
    requires 0 <= j < 8
    ensures FinderTopRight[8][j] == FormatWhite
  {
  }

  /** The rims of the bottom left table. */
  lemma BottomLeftSeparatorRow(j: int)
    requires 0 <= j < 8
    ensures FinderBottomLeft[0][j] == FixedWhite
  {
  }

  lemma BottomLeftSeparatorColumn(i: int)
    requires 0 <= i < 8
    ensures FinderBottomLeft[i][7] == FixedWhite
  {
  }

  lemma BottomLeftFormatColumn(i: int)
    requires 1 <= i < 8
    ensures FinderBottomLeft[i][8] == FormatWhite
  {
  }

  /** The alignment table holds the ISO alignment pattern. */
  lemma AlignmentTable(dr: int, dc: int)
    requires -2 <= dr <= 2 && -2 <= dc <= 2
    ensures AlignmentPattern[dr + 2][dc + 2] == AlignmentRing(dr, dc)
  {
  }

  /** Every table entry is a layout flag. */
  lemma TableFlags(i: int, j: int)
    requires 0 <= i < 9 && 0 <= j < 9
    ensures IsBaseFlag(FinderTopLeft[i][j])
    ensures j < 8 ==> IsBaseFlag(FinderTopRight[i][j])
    ensures i < 8 ==> IsBaseFlag(FinderBottomLeft[i][j])
    ensures i < 5 && j < 5 ==> IsBaseFlag(AlignmentPattern[i][j])
  {
  }

  /** Which alignment patterns can cover the modules of the finder corners:
   *  only the three corner pairs, which the layout skips. */
  lemma NoAlignmentAtFinders(version: int, r: int, c: int)
    requires 1 <= version <= 40
    requires (r <= 8 && c <= 8) || (r <= 8 && c >= 17 + 4 * version - 8) || (r >= 17 + 4 * version - 8 && c <= 8)
    ensures version > 1 ==> !AlignmentCell(AlignmentPositions(version), r, c)
  {
    if version > 1 {
      NearRange(version, r);
      NearRange(version, c);
    }
  }

  /** In the finder corners, away from the timing patterns, the base matrix
   *  holds the finder tables. */
  lemma BaseIsFinders(version: int, r: int, c: int)
    requires 1 <= version <= 40 && 0 <= r && 0 <= c
    requires (r <= 8 && c <= 8) || (r <= 8 && c >= 17 + 4 * version - 8) || (r >= 17 + 4 * version - 8 && c <= 8)
    requires !Timing(17 + 4 * version - 8, r, c)
    ensures BaseModule(version, r, c) == Finders(version, r, c)
  {
    NoAlignmentAtFinders(version, r, c);
  }

  /** On an alignment pattern the base matrix holds the alignment table: no
   *  alignment pattern meets a version block. */
  lemma BaseIsAlignment(version: int, pos: seq<int>, r: int, c: int)
    requires 2 <= version <= 40 && pos == AlignmentPositions(version)
    ensures AlignmentCell(pos, r, c) ==> BaseModule(version, r, c) == AlignmentModule(pos, r, c)
  {
    if AlignmentCell(pos, r, c) {
      NearRange(version, r);
      NearRange(version, c);
    }
  }

  /** Where an alignment pattern overlaps the timing row, its modules agree
   *  with the timing pattern's: the first centre is 6 and every centre is
   *  even. */
  lemma AlignmentOnTimingRow(pos: seq<int>, r: int, c: int)
    requires Spaced(pos) && pos[0] == 6 && r == 6 && AlignmentCell(pos, r, c)
    ensures AlignmentModule(pos, r, c) == TimingModule(r + c - 6)
  {
    NearIs(pos, 6, 0);
    var j := Near(pos, c);
    SpacedDistinct(pos, j, j);
    assert AlignmentModule(pos, r, c) == AlignmentPattern[0 + 2][c - pos[j] + 2];
    AlignmentTable(0, c - pos[j]);
  }

  /** Where an alignment pattern overlaps the timing column, its modules
   *  agree with the timing pattern's. */
  lemma AlignmentOnTimingColumn(pos: seq<int>, r: int, c: int)
    requires Spaced(pos) && pos[0] == 6 && c == 6 && AlignmentCell(pos, r, c)
    ensures AlignmentModule(pos, r, c) == TimingModule(r + c - 6)
  {
    NearIs(pos, 6, 0);
    var i := Near(pos, r);
    SpacedDistinct(pos, i, i);
    assert AlignmentModule(pos, r, c) == AlignmentPattern[r - pos[i] + 2][0 + 2];
    AlignmentTable(r - pos[i], 0);
  }

  /** On a timing pattern the base matrix holds the timing module. */
  lemma BaseIsTiming(version: int, r: int, c: int)
    requires 1 <= version <= 40 && Timing(17 + 4 * version - 8, r, c)
    ensures BaseModule(version, r, c) == TimingModule(r + c - 6)
  {
    if version > 1 && AlignmentCell(AlignmentPositions(version), r, c) {
      var pos := AlignmentPositions(version);
      AlignmentSpaced(version);
      if r == 6 {
        AlignmentOnTimingRow(pos, r, c);
      } else {
        AlignmentOnTimingColumn(pos, r, c);
      }
      BaseIsAlignment(version, pos, r, c);
    }
  }

  /** The top left corner of the base matrix is the top left table. */
  lemma AtTopLeft(version: int, r: int, c: int)
    requires 1 <= version <= 40 && 0 <= r < 9 && 0 <= c < 9 && !(r == 6 && c == 8) && !(r == 8 && c == 6)
    ensures BaseModule(version, r, c) == FinderTopLeft[r][c]
  {
    BaseIsFinders(version, r, c);
  }

  /** The top right corner of the base matrix is the top right table. */
  lemma AtTopRight(version: int, r: int, c: int, j: int)
    requires 1 <= version <= 40 && 0 <= r < 9 && 0 <= j < 8 && c == 17 + 4 * version - 8 + j
    ensures BaseModule(version, r, c) == FinderTopRight[r][j]
  {
    BaseIsFinders(version, r, c);
  }

  /** The bottom left corner of the base matrix is the bottom left table. */
  lemma AtBottomLeft(version: int, r: int, c: int, i: int)
    requires 1 <= version <= 40 && 0 <= i < 8 && r == 17 + 4 * version - 8 + i && 0 <= c < 9
    ensures BaseModule(version, r, c) == FinderBottomLeft[i][c]
  {
    BaseIsFinders(version, r, c);
  }

  /** The top left finder pattern. */
  lemma FinderAtTopLeft(version: int, i: int, j: int)
    requires 1 <= version <= 40 && 0 <= i < 7 && 0 <= j < 7
    ensures BaseModule(version, i, j) == FinderModule(i, j)
  {
    AtTopLeft(version, i, j);
    FinderTables(i, j);
  }

  /** The top right finder pattern. */
  lemma FinderAtTopRight(version: int, i: int, j: int)
    requires 1 <= version <= 40 && 0 <= i < 7 && 0 <= j < 7
    ensures BaseModule(version, i, 17 + 4 * version - 7 + j) == FinderModule(i, j)
  {
    AtTopRight(version, i, 17 + 4 * version - 7 + j, j + 1);
    FinderTables(i, j);
  }

  /** The bottom left finder pattern. */
  lemma FinderAtBottomLeft(version: int, i: int, j: int)
    requires 1 <= version <= 40 && 0 <= i < 7 && 0 <= j < 7
    ensures BaseModule(version, 17 + 4 * version - 7 + i, j) == FinderModule(i, j)
  {
    AtBottomLeft(version, 17 + 4 * version - 7 + i, j, i + 1);
    FinderTables(i, j);
  }

  /** The three finder patterns sit in the corners of the symbol (ISO/IEC
   *  18004:2015 section 6.3.3). */
  lemma FinderPatterns(version: int, i: int, j: int)
    requires 1 <= version <= 40 && 0 <= i < 7 && 0 <= j < 7
    ensures BaseModule(version, i, j) == FinderModule(i, j)
    ensures BaseModule(version, i, 17 + 4 * version - 7 + j) == FinderModule(i, j)
    ensures BaseModule(version, 17 + 4 * version - 7 + i, j) == FinderModule(i, j)
  {
    FinderAtTopLeft(version, i, j);
    FinderAtTopRight(version, i, j);
    FinderAtBottomLeft(version, i, j);
  }

  /** The separator of the top left finder pattern. */
  lemma SeparatorTopLeft(version: int, k: int)
    requires 1 <= version <= 40 && 0 <= k < 8
    ensures BaseModule(version, 7, k) == FixedWhite && BaseModule(version, k, 7) == FixedWhite
  {
    AtTopLeft(version, 7, k);
    AtTopLeft(version, k, 7);
    TopLeftRim(k);
  }

  /** The separator of the top right finder pattern: its row below the
   *  pattern and its column to the left of it. */
  lemma SeparatorTopRight(version: int, k: int)
    requires 1 <= version <= 40 && 0 <= k < 8
    ensures BaseModule(version, 7, 17 + 4 * version - 1 - k) == FixedWhite
    ensures BaseModule(version, k, 17 + 4 * version - 8) == FixedWhite
  {
    SeparatorBelowTopRight(version, k);
    SeparatorBesideTopRight(version, k);
  }

  lemma SeparatorBelowTopRight(version: int, k: int)
    requires 1 <= version <= 40 && 0 <= k < 8
    ensures BaseModule(version, 7, 17 + 4 * version - 1 - k) == FixedWhite
  {
    AtTopRight(version, 7, 17 + 4 * version - 1 - k, 7 - k);
    TopRightSeparatorRow(7 - k);
  }

  lemma SeparatorBesideTopRight(version: int, k: int)
    requires 1 <= version <= 40 && 0 <= k < 8
    ensures BaseModule(version, k, 17 + 4 * version - 8) == FixedWhite
  {
    AtTopRight(version, k, 17 + 4 * version - 8, 0);
    TopRightSeparatorColumn(k);
  }

  /** The separator of the bottom left finder pattern. */
  lemma SeparatorBottomLeft(version: int, k: int)
    requires 1 <= version <= 40 && 0 <= k < 8
    ensures BaseModule(version, 17 + 4 * version - 8, k) == FixedWhite
    ensures BaseModule(version, 17 + 4 * version - 1 - k, 7) == FixedWhite
  {
    AtBottomLeft(version, 17 + 4 * version - 8, k, 0);
    AtBottomLeft(version, 17 + 4 * version - 1 - k, 7, 7 - k);
    BottomLeftSeparatorRow(k);
    BottomLeftSeparatorColumn(7 - k);
  }

  /** Light separators of one module surround the finder patterns on their
   *  inner sides (ISO/IEC 18004:2015 section 6.3.4). */
  lemma Separators(version: int, k: int)
    requires 1 <= version <= 40 && 0 <= k < 8
    ensures BaseModule(version, 7, k) == FixedWhite && BaseModule(version, k, 7) == FixedWhite
    ensures BaseModule(version, 7, 17 + 4 * version - 1 - k) == FixedWhite
    ensures BaseModule(version, k, 17 + 4 * version - 8) == FixedWhite
    ensures BaseModule(version, 17 + 4 * version - 8, k) == FixedWhite
    ensures BaseModule(version, 17 + 4 * version - 1 - k, 7) == FixedWhite
  {
    SeparatorTopLeft(version, k);
    SeparatorTopRight(version, k);
    SeparatorBottomLeft(version, k);
  }

  /** The format modules beside the top left finder pattern. */
  lemma FormatTopLeft(version: int, k: int)
    requires 1 <= version <= 40 && 0 <= k < 9 && k != 6
    ensures BaseModule(version, 8, k) == FormatWhite && BaseModule(version, k, 8) == FormatWhite
  {
    AtTopLeft(version, 8, k);
    AtTopLeft(version, k, 8);
    if k < 8 {
      TopLeftRim(k);
    }
  }

  /** The format modules beside the top right finder pattern. */
  lemma FormatTopRight(version: int, k: int)
    requires 1 <= version <= 40 && 0 <= k < 8
    ensures BaseModule(version, 8, 17 + 4 * version - 1 - k) == FormatWhite
  {
    AtTopRight(version, 8, 17 + 4 * version - 1 - k, 7 - k);
    TopRightFormatRow(7 - k);
  }

  /** The format modules beside the bottom left finder pattern. */
  lemma FormatBottomLeft(version: int, k: int)
    requires 1 <= version <= 40 && 0 <= k < 7
    ensures BaseModule(version, 17 + 4 * version - 1 - k, 8) == FormatWhite
  {
    AtBottomLeft(version, 17 + 4 * version - 1 - k, 8, 7 - k);
    BottomLeftFormatColumn(7 - k);
  }

  /** The format information modules are reserved: row and column 8 beside
   *  the top left finder but for the timing modules, row 8 beside the top
   *  right finder and column 8 beside the bottom left finder (ISO/IEC
   *  18004:2015 section 7.9.1). */
  lemma FormatAreas(version: int, k: int)
    requires 1 <= version <= 40 && 0 <= k < 9
    ensures k != 6 ==> BaseModule(version, 8, k) == FormatWhite && BaseModule(version, k, 8) == FormatWhite
    ensures k < 8 ==> BaseModule(version, 8, 17 + 4 * version - 1 - k) == FormatWhite
    ensures k < 7 ==> BaseModule(version, 17 + 4 * version - 1 - k, 8) == FormatWhite
  {
    if k != 6 {
      FormatTopLeft(version, k);
    }
    if k < 8 {
      FormatTopRight(version, k);
    }
    if k < 7 {
      FormatBottomLeft(version, k);
    }
  }

  /** The dark module at (4 * version + 9, 8) (ISO/IEC 18004:2015 section
   *  7.9.1). */
  lemma DarkModule(version: int)
    requires 1 <= version <= 40
    ensures BaseModule(version, 4 * version + 9, 8) == FixedBlack
  {
    AtBottomLeft(version, 4 * version + 9, 8, 0);
  }

  /** The timing patterns alternate dark and light along row 6 and column 6
   *  between the separators, dark on even coordinates, also where an
   *  alignment pattern overlaps them (ISO/IEC 18004:2015 section 6.3.5). */
  lemma TimingPatterns(version: int, k: int)
    requires 1 <= version <= 40 && 8 <= k < 17 + 4 * version - 8
    ensures BaseModule(version, 6, k) == TimingModule(k) && BaseModule(version, k, 6) == TimingModule(k)
  {
    BaseIsTiming(version, 6, k);
    BaseIsTiming(version, k, 6);
  }

  /** An alignment pattern sits on every pair of the centres pos of the
   *  version but the three that fall on the finder patterns (ISO/IEC
   *  18004:2015 section 6.3.6). */
  lemma AlignmentPatterns(version: int, pos: seq<int>, a: int, b: int, dr: int, dc: int)
    requires 2 <= version <= 40 && pos == AlignmentPositions(version) && 0 <= a < |pos| && 0 <= b < |pos|
    requires !Corner(a, b, |pos|) && -2 <= dr <= 2 && -2 <= dc <= 2
    ensures BaseModule(version, pos[a] + dr, pos[b] + dc) == AlignmentRing(dr, dc)
  {
    BaseIsAlignment(version, pos, pos[a] + dr, pos[b] + dc);
    AlignmentModuleOf(version, pos, a, b, dr, dc);
  }

  /** The centres of a version are spaced. */
  lemma CentresSpaced(version: int, pos: seq<int>)
    requires 2 <= version <= 40 && pos == AlignmentPositions(version)
    ensures Spaced(pos)
  {
    AlignmentSpaced(version);
  }

  /** The alignment module of a version dr rows and dc columns off the
   *  centres (pos[a], pos[b]). */
  lemma AlignmentModuleOf(version: int, pos: seq<int>, a: int, b: int, dr: int, dc: int)
    requires 2 <= version <= 40 && pos == AlignmentPositions(version) && 0 <= a < |pos| && 0 <= b < |pos|
    requires !Corner(a, b, |pos|) && -2 <= dr <= 2 && -2 <= dc <= 2
    ensures AlignmentCell(pos, pos[a] + dr, pos[b] + dc) && AlignmentModule(pos, pos[a] + dr, pos[b] + dc) == AlignmentRing(dr, dc)
  {
    CentresSpaced(version, pos);
    AlignmentModuleIs(pos, a, b, dr, dc);
  }

  /** The alignment module dr rows and dc columns off the centres (pos[a],
   *  pos[b]) is the alignment table's. */
  lemma AlignmentModuleIs(pos: seq<int>, a: int, b: int, dr: int, dc: int)
    requires Spaced(pos) && 0 <= a < |pos| && 0 <= b < |pos|
    requires !Corner(a, b, |pos|) && -2 <= dr <= 2 && -2 <= dc <= 2
    ensures AlignmentCell(pos, pos[a] + dr, pos[b] + dc)
    ensures AlignmentModule(pos, pos[a] + dr, pos[b] + dc) == AlignmentRing(dr, dc)
  {
    NearIs(pos, pos[a] + dr, a);
    NearIs(pos, pos[b] + dc, b);
    assert AlignmentModule(pos, pos[a] + dr, pos[b] + dc) == AlignmentPattern[dr + 2][dc + 2];
    AlignmentTable(dr, dc);
  }

  /** The version information blocks are reserved from version 7 on
   *  (ISO/IEC 18004:2015 section 7.10). */
  lemma VersionAreas(version: int, i: int, j: int)
    requires 7 <= version <= 40 && 0 <= i < 6 && 0 <= j < 3
    ensures var dim := 17 + 4 * version;
      BaseModule(version, i, dim - 11 + j) == FormatWhite && BaseModule(version, dim - 11 + j, i) == FormatWhite
  {
  }

  /** The five modules beyond the symbol's last row and column are white. */
  lemma Margin(version: int, r: int, c: int)
    requires 1 <= version <= 40 && 0 <= r && 0 <= c
    requires r >= 17 + 4 * version || c >= 17 + 4 * version
    ensures BaseModule(version, r, c) == White
  {
    if version > 1 {
      NearRange(version, r);
      NearRange(version, c);
    }
  }

  /** Every module of the finder layer is a layout flag. */
  lemma FinderFlags(version: int, r: int, c: int)
    requires 1 <= version <= 40
    ensures IsBaseFlag(Finders(version, r, c))
  {
    var dim := 17 + 4 * version;
    if InRect(r, c, dim - 8, 0, 8, 9) {
      TableFlags(r - (dim - 8), c);
    } else if InRect(r, c, 0, dim - 8, 9, 8) {
      TableFlags(r, c - (dim - 8));
    } else if InRect(r, c, 0, 0, 9, 9) {
      TableFlags(r, c);
    }
  }

  /** Every module of an alignment pattern is a layout flag. */
  lemma AlignmentFlags(pos: seq<int>, r: int, c: int)
    ensures AlignmentCell(pos, r, c) ==> IsBaseFlag(AlignmentModule(pos, r, c))
  {
    if AlignmentCell(pos, r, c) {
      TableFlags(r - pos[Near(pos, r)] + 2, c - pos[Near(pos, c)] + 2);
    }
  }

  /** Every module of the base matrix is a layout flag. */
  lemma BaseIsFlag(version: int, r: int, c: int)
    requires 1 <= version <= 40
    ensures IsBaseFlag(BaseModule(version, r, c))
  {
    FinderFlags(version, r, c);
    if version > 1 {
      AlignmentFlags(AlignmentPositions(version), r, c);
    }
  }

  /** What the layout flags mean: a fixed module is never data, and a
   *  module that is not fixed is white. */
  lemma FlagMeaning(v: Byte)
    requires IsBaseFlag(v)
    ensures IsCellFlag(v) && (IsFixed(v) ==> IsNonData(v)) && (!IsFixed(v) ==> !IsBlack(v))
  {
  }

  /** Every module of the base matrix is a layout flag: a fixed module is
   *  never data, and a module that is not fixed is white. */
  lemma BaseFlags(version: int, r: int, c: int)
    requires 1 <= version <= 40
    ensures IsBaseFlag(BaseModule(version, r, c))
    ensures IsCellFlag(BaseModule(version, r, c))
    ensures IsFixed(BaseModule(version, r, c)) ==> IsNonData(BaseModule(version, r, c))
    ensures !IsFixed(BaseModule(version, r, c)) ==> !IsBlack(BaseModule(version, r, c))
  {
    BaseIsFlag(version, r, c);
    FlagMeaning(BaseModule(version, r, c));
  }
}
