// The module matrix of a QR Code symbol: every cell is a byte of flags. Bit 0
// is the colour (1 dark), bit 1 marks a module that is not data (function
// patterns and reserved areas), bit 2 a module of a function pattern whose
// colour is known in advance (finder, separator, timing, alignment).
module Matrix {
  import opened Bytes

  const White: Byte := 0
  const Black: Byte := 1
  const NonData: Byte := 2
  const Fixed: Byte := 4
  const FormatWhite: Byte := 2
  const FormatBlack: Byte := 3
  const FixedWhite: Byte := 6
  const FixedBlack: Byte := 7

  /** The colour bit. */
  predicate IsBlack(v: Byte)
  {
    v % 2 == 1
  }

  /** (v & NonData) != 0 */
  predicate IsNonData(v: Byte)
  {
    v / 2 % 2 == 1
  }

  /** (v & Fixed) != 0 */
  predicate IsFixed(v: Byte)
  {
    v / 4 % 2 == 1
  }

  /** v ^ 1: the colour bit inverted, every other flag kept. */
  function Flip(v: Byte): (r: Byte)
    ensures IsBlack(r) != IsBlack(v) && r / 2 == v / 2
  {
    if v % 2 == 0 then v + 1 else v - 1
  }

  /** v | Black: the colour bit set, every other flag kept. */
  function SetBlack(v: Byte): (r: Byte)
    ensures IsBlack(r) && r / 2 == v / 2
  {
    if v % 2 == 0 then v + 1 else v
  }

  /** Flipping twice restores the module. */
  lemma FlipFlip(v: Byte)
    ensures Flip(Flip(v)) == v
  {
  }

  /** The flag bytes the layout writes: data white, reserved white and black
   *  format modules, fixed white and black modules. */
  predicate IsCellFlag(v: Byte)
  {
    v == White || v == FormatWhite || v == FormatBlack || v == FixedWhite || v == FixedBlack
  }

  /** The flag bytes are consistent: a fixed module is never data. */
  lemma FixedIsNonData(v: Byte)
    requires IsCellFlag(v)
    ensures IsFixed(v) ==> IsNonData(v)
  {
  }

  /** The contents of the matrix m as rows of modules. */
  ghost function Cells(m: array2<Byte>): (g: seq<seq<Byte>>)
    reads m
    ensures |g| == m.Length0
    ensures forall r :: 0 <= r < |g| ==> |g[r]| == m.Length1
  {
    seq(m.Length0, r requires 0 <= r < m.Length0 reads m => seq(m.Length1, c requires 0 <= c < m.Length1 reads m => m[r, c]))
  }

  /** Each module of the snapshot is the module of the matrix. */
  lemma CellAt(m: array2<Byte>, r: int, c: int)
    requires 0 <= r < m.Length0 && 0 <= c < m.Length1
    ensures Cells(m)[r][c] == m[r, c]
  {
  }
}
