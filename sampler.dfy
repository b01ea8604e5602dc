/** The fixed-module check of a decoding attempt: the sampled colour of
 *  every module of the symbol is written into the base matrix, except on the
 *  modules whose colour the layout fixes in advance (finder, separator,
 *  timing and alignment patterns). Those are compared with the sample
 *  instead, and the attempt is abandoned when more of them are wrong than
 *  the error correction level tolerates. The sampling itself goes through
 *  the geometric transform of the symbol; here the sampled colours are an
 *  input grid, true for a dark module. */
module Sampler {
  import opened Bytes
  import opened Matrix
  import QRConstants
  import Layout

  /** A sampled colour for every module of a dim x dim symbol. */
  predicate Grid(modules: seq<seq<bool>>, dim: int)
  {
    |modules| == dim && forall r :: 0 <= r < dim ==> |modules[r]| == dim
  }

  /** A matrix snapshot that covers the dim x dim symbol. */
  predicate Covers(cells: seq<seq<Byte>>, dim: int)
  {
    0 <= dim <= |cells| && forall r :: 0 <= r < |cells| ==> dim <= |cells[r]|
  }

  /** A fixed module whose sampled colour is not the colour the layout
   *  gives it. */
  predicate Mismatch(v: Byte, dark: bool)
  {
    IsFixed(v) && dark != IsBlack(v)
  }

  /** The number of fixed modules among the first n of row r. */
  function FixedInRow(cells: seq<seq<Byte>>, r: int, n: int): (k: nat)
    requires 0 <= r < |cells| && 0 <= n <= |cells[r]|
    ensures k <= n
  {
    if n == 0 then 0 else FixedInRow(cells, r, n - 1) + (if IsFixed(cells[r][n - 1]) then 1 else 0)
  }

  /** The number of fixed modules among the first n of row r whose sampled
   *  colour is wrong. */
  function MismatchesInRow(cells: seq<seq<Byte>>, modules: seq<seq<bool>>, r: int, n: int): (k: nat)
    requires 0 <= r < |cells| && 0 <= n <= |cells[r]| && r < |modules| && n <= |modules[r]|
  {
    if n == 0 then 0
    else MismatchesInRow(cells, modules, r, n - 1) + (if Mismatch(cells[r][n - 1], modules[r][n - 1]) then 1 else 0)
  }

  /** The fixed modules of the first rows rows of the symbol. */
  function FixedCount(cells: seq<seq<Byte>>, dim: int, rows: int): nat
    requires Covers(cells, dim) && 0 <= rows <= dim
  {
    if rows == 0 then 0 else FixedCount(cells, dim, rows - 1) + FixedInRow(cells, rows - 1, dim)
  }

  /** The wrongly sampled fixed modules of the first rows rows. */
  function Mismatches(cells: seq<seq<Byte>>, modules: seq<seq<bool>>, dim: int, rows: int): nat
    requires Covers(cells, dim) && Grid(modules, dim) && 0 <= rows <= dim
  {
    if rows == 0 then 0 else Mismatches(cells, modules, dim, rows - 1) + MismatchesInRow(cells, modules, rows - 1, dim)
  }

  /** The largest number of wrong fixed modules the level tolerates: the
   *  tolerance percentage of the fixed modules, rounded down. */
  function Budget(fixedCount: int, level: int): int
    requires QRConstants.IsErrorTolerance(level)
  {
    fixedCount * QRConstants.ErrorTolerancePercent(level) / 100
  }

  /** Module (r, c) after sampling: a module of the symbol that is not fixed
   *  is made dark when its sample is dark; every other module is kept. */
  function SampledModule(v: Byte, dark: bool, r: int, c: int, dim: int): (w: Byte)
    ensures w / 2 == v / 2
  {
    if 0 <= r < dim && 0 <= c < dim && !IsFixed(v) && dark then SetBlack(v) else v
  }

  /** The sampled colour of module (r, c), white outside the symbol. */
  function Sample(modules: seq<seq<bool>>, dim: int, r: int, c: int): bool
    requires Grid(modules, dim)
  {
    0 <= r < dim && 0 <= c < dim && modules[r][c]
  }

  /** A row never holds more wrong fixed modules than fixed modules. */
  lemma {:induction false} RowMismatchesBounded(cells: seq<seq<Byte>>, modules: seq<seq<bool>>, r: int, n: int)
    requires 0 <= r < |cells| && 0 <= n <= |cells[r]| && r < |modules| && n <= |modules[r]|
    ensures MismatchesInRow(cells, modules, r, n) <= FixedInRow(cells, r, n)
  {
    if n > 0 {
      RowMismatchesBounded(cells, modules, r, n - 1);
    }
  }

  /** The symbol never holds more wrong fixed modules than fixed modules. */
  lemma {:induction false} MismatchesBounded(cells: seq<seq<Byte>>, modules: seq<seq<bool>>, dim: int, rows: int)
    requires Covers(cells, dim) && Grid(modules, dim) && 0 <= rows <= dim
    ensures Mismatches(cells, modules, dim, rows) <= FixedCount(cells, dim, rows)
  {
    if rows > 0 {
      MismatchesBounded(cells, modules, dim, rows - 1);
      RowMismatchesBounded(cells, modules, rows - 1, dim);
    }
  }

  /** Samples that agree with the layout on every fixed module of a row
   *  leave no mismatch in it. */
  lemma {:induction false} RowAgrees(cells: seq<seq<Byte>>, modules: seq<seq<bool>>, r: int, n: int)
    requires 0 <= r < |cells| && 0 <= n <= |cells[r]| && r < |modules| && n <= |modules[r]|
    requires forall c :: 0 <= c < n ==> !Mismatch(cells[r][c], modules[r][c])
    ensures MismatchesInRow(cells, modules, r, n) == 0
  {
    if n > 0 {
      RowAgrees(cells, modules, r, n - 1);
    }
  }

  /** A symbol sampled without error on its fixed modules passes the check,
   *  whatever the level. */
  lemma {:induction false} PerfectSamplePasses(cells: seq<seq<Byte>>, modules: seq<seq<bool>>, dim: int, rows: int, level: int)
    requires Covers(cells, dim) && Grid(modules, dim) && 0 <= rows <= dim && QRConstants.IsErrorTolerance(level)
    requires forall r, c :: 0 <= r < dim && 0 <= c < dim ==> !Mismatch(cells[r][c], modules[r][c])
    ensures Mismatches(cells, modules, dim, rows) == 0 <= Budget(FixedCount(cells, dim, rows), level)
  {
    if rows > 0 {
      PerfectSamplePasses(cells, modules, dim, rows - 1, level);
      RowAgrees(cells, modules, rows - 1, dim);
    }
  }

  /** Sampled over the base matrix of a version, a module of the symbol
   *  outside the function patterns is dark exactly when its sample is, and
   *  a function pattern module keeps the colour and flags of the layout. */
  lemma SampledBase(version: int, modules: seq<seq<bool>>, r: int, c: int)
    requires 1 <= version <= 40 && Grid(modules, 17 + 4 * version)
    requires 0 <= r < 17 + 4 * version && 0 <= c < 17 + 4 * version
    ensures var v := Layout.BaseModule(version, r, c);
      var w := SampledModule(v, modules[r][c], r, c, 17 + 4 * version);
      (!IsFixed(v) ==> IsBlack(w) == modules[r][c] && IsNonData(w) == IsNonData(v)) && (IsFixed(v) ==> w == v)
  {
    Layout.BaseFlags(version, r, c);
  }

  /** The state of the scan before row row: the rows above it sampled, the
   *  rest as they were. */
  ghost predicate RowsDone(m: array2<Byte>, cells: seq<seq<Byte>>, modules: seq<seq<bool>>, dim: int, row: int)
    reads m
    requires Grid(modules, dim) && |cells| == m.Length0 && forall r :: 0 <= r < |cells| ==> |cells[r]| == m.Length1
  {
    forall r, c :: 0 <= r < m.Length0 && 0 <= c < m.Length1 ==>
      m[r, c] == if r < row then SampledModule(cells[r][c], Sample(modules, dim, r, c), r, c, dim) else cells[r][c]
  }

  /** The sampling of row row, one module after the other, counting its
   *  fixed modules and the wrong ones among them. */
  method SampleRow(m: array2<Byte>, modules: seq<seq<bool>>, dim: int, row: int, ghost cells: seq<seq<Byte>>)
    returns (fixedCount: int, errorCount: int)
    requires Grid(modules, dim) && 0 <= row < dim <= m.Length0 && dim <= m.Length1
    requires |cells| == m.Length0 && forall r :: 0 <= r < |cells| ==> |cells[r]| == m.Length1
    requires RowsDone(m, cells, modules, dim, row)
    modifies m
    ensures RowsDone(m, cells, modules, dim, row + 1)
    ensures fixedCount == FixedInRow(cells, row, dim) && errorCount == MismatchesInRow(cells, modules, row, dim)
  {
    fixedCount, errorCount := 0, 0;
    var col := 0;
    while col < dim
      invariant 0 <= col <= dim
      invariant fixedCount == FixedInRow(cells, row, col) && errorCount == MismatchesInRow(cells, modules, row, col)
      invariant forall r, c :: 0 <= r < m.Length0 && 0 <= c < m.Length1 ==>
        m[r, c] == if r < row || (r == row && c < col) then SampledModule(cells[r][c], Sample(modules, dim, r, c), r, c, dim)
                   else cells[r][c]
    {
      var v := m[row, col];
      assert v == cells[row][col];
      if !IsFixed(v) {
        // the module is not a fixed module
        if modules[row][col] {
          m[row, col] := SetBlack(v);
        }
      } else {
        // total fixed modules, and the wrong ones
        fixedCount := fixedCount + 1;
        if modules[row][col] != IsBlack(v) {
          errorCount := errorCount + 1;
        }
      }
      col := col + 1;
    }
  }

  /** The decoder's ConvertImageToMatrix on the matrix m: every module of
   *  the dim x dim symbol that is not fixed takes its sampled colour (dark
   *  sets the colour bit), every other module is kept; the fixed modules
   *  are compared with their samples, and the check fails (the source's
   *  exception) when the wrong ones exceed the budget of the level. */
  method CheckFixedModules(m: array2<Byte>, dim: int, modules: seq<seq<bool>>, level: int) returns (ok: bool)
    requires Grid(modules, dim) && 0 <= dim <= m.Length0 && dim <= m.Length1 && QRConstants.IsErrorTolerance(level)
    modifies m
    ensures forall r, c :: 0 <= r < m.Length0 && 0 <= c < m.Length1 ==>
      m[r, c] == SampledModule(old(m[r, c]), Sample(modules, dim, r, c), r, c, dim)
    ensures ok <==> Mismatches(old(Cells(m)), modules, dim, dim) <= Budget(FixedCount(old(Cells(m)), dim, dim), level)
  {
    ghost var cells := Cells(m);
    var fixedCount, errorCount := 0, 0;
    var row := 0;
    while row < dim
      invariant 0 <= row <= dim
      invariant fixedCount == FixedCount(cells, dim, row) && errorCount == Mismatches(cells, modules, dim, row)
      invariant RowsDone(m, cells, modules, dim, row)
    {
      var rowFixed, rowErrors := SampleRow(m, modules, dim, row, cells);
      fixedCount := fixedCount + rowFixed;
      errorCount := errorCount + rowErrors;
      row := row + 1;
    }
    forall r, c | 0 <= r < m.Length0 && 0 <= c < m.Length1
      ensures m[r, c] == SampledModule(cells[r][c], Sample(modules, dim, r, c), r, c, dim)
    {
      if r >= dim {
        assert Sample(modules, dim, r, c) == false;
      }
    }
    ok := errorCount <= fixedCount * QRConstants.ErrorTolerancePercent(level) / 100;
  }
}
